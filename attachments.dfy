/**
 * The filesystem steps of `DBTool.restore_attachments`: `mkdir -p` the
 * database's filestore folder, `ln -s` the folder to a `filestore` entry
 * inside it, extract the archive's members under `filestore` into the folder
 * with `unzip -n` (never overwriting), then `rm` the link.
 *
 * Symbolic links are kept beside the tree: `Links` maps the real location of
 * each link to its target, already anchored at the directory holding the
 * link when the target is relative. A path is resolved one component at a
 * time, as the kernel does, following at most `MaxLinks` links.
 */
module Attachments {
  import opened Wrappers
  import opened FileSystem

  const Filestore := "filestore"

  /** Linux's MAXSYMLINKS: resolving one path follows at most this many links. */
  const MaxLinks: nat := 40

  /** A directory name as written: from the root when absolute, from the working directory otherwise. */
  datatype DirName = DirName(absolute: bool, parts: Path)

  /** The path a name stands for when it is read in the directory `dir`. */
  function Anchored(dir: Path, n: DirName): Path
  {
    if n.absolute then n.parts else dir + n.parts
  }

  /** `os.path.join(data_dir, 'filestore', target_db)`, as the source spells it. */
  function RestoreFolderName(dataDir: DirName, db: string): DirName
  {
    DirName(dataDir.absolute, dataDir.parts + [Filestore, db])
  }

  /** The folder's real path for a process working in `cwd`. */
  function RestoreFolder(cwd: Path, dataDir: DirName, db: string): (r: Path)
    ensures r != [] && r[|r| - 1] == db
  {
    Anchored(cwd, RestoreFolderName(dataDir, db))
  }

  /** Each link's real location mapped to the path its target stands for. */
  type Links = map<Path, Path>

  /**
   * Resolves `rest` below the real directory `base`, following every link
   * met on the way; None when more than `fuel` links would have to be
   * followed (ELOOP).
   */
  function ResolveFrom(links: Links, base: Path, rest: Path, fuel: nat): Option<Path>
    decreases fuel, |rest|
  {
    if rest == [] then Some(base)
    else
      var x := base + [rest[0]];
      if x !in links then ResolveFrom(links, x, rest[1..], fuel)
      else if fuel == 0 then None
      else
        match ResolveFrom(links, [], links[x], fuel - 1)
        case None => None
        case Some(t) => ResolveFrom(links, t, rest[1..], fuel - 1)
  }

  /** The real path `p` stands for. */
  function Resolve(links: Links, p: Path): Option<Path>
  {
    ResolveFrom(links, [], p, MaxLinks)
  }

  /** `os.path.isdir`, which follows links. */
  predicate IsDirVia(fs: Entry, links: Links, p: Path)
  {
    Resolve(links, p).Some? && IsDirAt(fs, Resolve(links, p).value)
  }

  /**
   * `mkdir -p` of `rest` below the real directory `base`: an existing
   * directory is entered, a link is entered when it leads to a directory, a
   * missing component is created, anything else stops the walk. The result
   * is the tree (with the directories made so far) and the real directory
   * reached, None on failure.
   */
  function MakeDirsFrom(fs: Entry, links: Links, base: Path, rest: Path, fuel: nat): (Entry, Option<Path>)
    decreases |rest|
  {
    if rest == [] then (fs, Some(base))
    else
      var x := base + [rest[0]];
      if x !in links then
        match Lookup(fs, x)
        case Some(Dir(_)) => MakeDirsFrom(fs, links, x, rest[1..], fuel)
        case Some(_) => (fs, None)
        case None =>
          (match Put(fs, x, Dir([]))
           case Success(fs') => MakeDirsFrom(fs', links, x, rest[1..], fuel)
           case Failure(_) => (fs, None))
      else if fuel == 0 then (fs, None)
      else
        match ResolveFrom(links, [], links[x], fuel - 1)
        case None => (fs, None)
        case Some(t) => if IsDirAt(fs, t) then MakeDirsFrom(fs, links, t, rest[1..], fuel - 1) else (fs, None)
  }

  /** `mkdir -p p`. */
  function MakeDirs(fs: Entry, links: Links, p: Path): (Entry, Option<Path>)
  {
    MakeDirsFrom(fs, links, [], p, MaxLinks)
  }

  /** A member of the attachment archive: its path and the modification time of the file stored there. */
  datatype Member = Member(path: Path, mtime: int)

  /** The members unzip's pattern selects: anything below `filestore`. */
  predicate Selected(m: Member)
  {
    |m.path| >= 2 && m.path[0] == Filestore
  }

  /** Where unzip puts a member extracted into `folder`: the real directory its parent resolves to, and its name there. */
  function Landing(links: Links, folder: Path, m: Member): Option<Path>
    requires Selected(m)
  {
    match Resolve(links, folder + m.path[..|m.path| - 1])
    case None => None
    case Some(d) => Some(d + [m.path[|m.path| - 1]])
  }

  /**
   * `unzip -n` for one member: its directories are made as by `mkdir -p`; it
   * is skipped when its name is taken (a link, even a dangling one, counts as
   * taken); it is lost when a directory on its way cannot be made. The result
   * is the new tree and whether the member was lost.
   */
  function PlaceMember(fs: Entry, links: Links, folder: Path, m: Member): (Entry, bool)
    requires Selected(m)
  {
    var (fs1, d) := MakeDirs(fs, links, folder + m.path[..|m.path| - 1]);
    PlaceFile(fs1, links, d, m.path[|m.path| - 1], m.mtime)
  }

  /** The file step of `PlaceMember`, once `mkdir -p` of the member's directory ended at `d`. */
  function PlaceFile(fs: Entry, links: Links, d: Option<Path>, name: string, mtime: int): (Entry, bool)
  {
    match d
    case None => (fs, true)
    case Some(dir) =>
      var x := dir + [name];
      if x in links || Lookup(fs, x).Some? then (fs, false)
      else
        match Put(fs, x, File(mtime))
        case Success(fs2) => (fs2, false)
        case Failure(_) => (fs, true)
  }

  /**
   * `unzip -n` over the members, in archive order: an error on one member is
   * recorded and extraction goes on. The result is the new tree and whether
   * some member was lost.
   */
  function Extract(fs: Entry, links: Links, folder: Path, ms: seq<Member>): (Entry, bool)
  {
    if ms == [] then (fs, false)
    else
      var (fs1, lost) := Extract(fs, links, folder, ms[..|ms| - 1]);
      var m := ms[|ms| - 1];
      if !Selected(m) then (fs1, lost)
      else
        var (fs2, lostHere) := PlaceMember(fs1, links, folder, m);
        (fs2, lost || lostHere)
  }

  /**
   * Where `ln -s <target> dest` makes its link, `name` being the target's
   * last component: at `dest` when nothing is there, inside `dest` when it
   * is a directory or a link to one; None ("File exists") when that place is
   * taken.
   */
  function LinkLocation(fs: Entry, links: Links, dest: Path, name: string): (r: Option<Path>)
    requires dest != []
    ensures r.Some? ==> r.value != [] && r.value !in links && Lookup(fs, r.value).None?
  {
    match Resolve(links, dest[..|dest| - 1])
    case None => None
    case Some(parent) =>
      var loc := parent + [dest[|dest| - 1]];
      var at :=
        if loc in links then
          (match Resolve(links, links[loc])
           case Some(t) => if IsDirAt(fs, t) then Some(t + [name]) else None
           case None => None)
        else
          (match Lookup(fs, loc)
           case None => Some(loc)
           case Some(Dir(_)) => Some(loc + [name])
           case Some(_) => None);
      match at
      case None => None
      case Some(p) => if p == [] || p in links || Lookup(fs, p).Some? then None else Some(p)
  }

  /** `ln -s target dest`: the new link's target is read in the directory holding the link. */
  function MakeLink(fs: Entry, links: Links, dest: Path, target: DirName): Option<Links>
    requires dest != [] && target.parts != []
  {
    match LinkLocation(fs, links, dest, target.parts[|target.parts| - 1])
    case None => None
    case Some(at) => Some(links[at := Anchored(at[..|at| - 1], target)])
  }

  /** `rm dest` without `-r`: removes a link; fails on a directory or on nothing. */
  function RemoveLink(links: Links, dest: Path): Option<Links>
    requires dest != []
  {
    match Resolve(links, dest[..|dest| - 1])
    case None => None
    case Some(parent) =>
      var loc := parent + [dest[|dest| - 1]];
      if loc in links then Some(links - {loc}) else None
  }

  datatype AttachError =
    | MkdirFailed       // `mkdir -p` met an entry that is not a directory
    | LinkExists        // `ln -s` found its link's place taken
    | NothingMatched    // unzip exit status 11: no member lies under `filestore`
    | MemberLost        // unzip could not create some member
    | RemoveFailed      // `rm` found a directory, not the link

  /** The tree and the links after the steps ran, and how the steps ended. */
  datatype AttachResult = AttachResult(fs: Entry, links: Links, outcome: Outcome<AttachError>)

  /**
   * The steps of `restore_attachments` without the ownership change of
   * docker mode, for the folder `folder` linked from `folder/filestore` to
   * `target`: the steps run in order and the first one that fails raises, so
   * a failing unzip leaves the link in place.
   */
  function RestoreSteps(fs: Entry, links: Links, folder: Path, target: DirName, ms: seq<Member>): AttachResult
    requires target.parts != []
  {
    var dest := folder + [Filestore];
    var (fs1, made) := MakeDirs(fs, links, folder);
    if made.None? then AttachResult(fs1, links, Fail(MkdirFailed))
    else
      match MakeLink(fs1, links, dest, target)
      case None => AttachResult(fs1, links, Fail(LinkExists))
      case Some(links2) =>
        if forall i | 0 <= i < |ms| :: !Selected(ms[i]) then AttachResult(fs1, links2, Fail(NothingMatched))
        else
          var (fs2, lost) := Extract(fs1, links2, folder, ms);
          if lost then AttachResult(fs2, links2, Fail(MemberLost))
          else
            match RemoveLink(links2, dest)
            case None => AttachResult(fs2, links2, Fail(RemoveFailed))
            case Some(links3) => AttachResult(fs2, links3, Pass)
  }

  /** `restore_attachments` as written: the link's target is `restore_folder` as spelt, relative when `data_dir` is. */
  function RestoreAttachmentsAsWritten(fs: Entry, links: Links, cwd: Path, dataDir: DirName, db: string, ms: seq<Member>): AttachResult
  {
    RestoreSteps(fs, links, RestoreFolder(cwd, dataDir, db), RestoreFolderName(dataDir, db), ms)
  }

  /** `restore_attachments` with the link's target made absolute, so that it leads back to the folder. */
  function RestoreAttachments(fs: Entry, links: Links, cwd: Path, dataDir: DirName, db: string, ms: seq<Member>): AttachResult
  {
    var folder := RestoreFolder(cwd, dataDir, db);
    RestoreSteps(fs, links, folder, DirName(true, folder), ms)
  }

  /** The links in force while unzip runs, when `mkdir -p` and `ln -s` succeeded. */
  function LinksDuringUnzip(fs: Entry, links: Links, folder: Path, target: DirName): Option<Links>
    requires target.parts != []
  {
    var (fs1, made) := MakeDirs(fs, links, folder);
    if made.None? then None else MakeLink(fs1, links, folder + [Filestore], target)
  }

  // ---------------------------------------------------------------------
  // Resolution and `mkdir -p`

  /** No link lies on the way along `a` from `base`. */
  ghost predicate NoLinksAlong(links: Links, base: Path, a: Path)
  {
    forall j | 1 <= j <= |a| :: base + a[..j] !in links
  }

  /** Resolution walks through link-free components unchanged. */
  lemma {:induction false} ResolveThrough(links: Links, base: Path, a: Path, b: Path, fuel: nat)
    requires NoLinksAlong(links, base, a)
    ensures ResolveFrom(links, base, a + b, fuel) == ResolveFrom(links, base + a, b, fuel)
    decreases |a|
  {
    if a == [] {
      assert a + b == b && base + a == base;
    } else {
      var x := base + [a[0]];
      assert a[..1] == [a[0]];
      assert (a + b)[0] == a[0] && (a + b)[1..] == a[1..] + b;
      forall j | 1 <= j <= |a[1..]| ensures x + a[1..][..j] !in links {
        assert x + a[1..][..j] == base + a[..j + 1];
      }
      ResolveThrough(links, x, a[1..], b, fuel);
      assert x + a[1..] == base + a;
    }
  }

  /** A path without links on its way resolves to itself. */
  lemma NoLinksResolve(links: Links, p: Path)
    requires NoLinksAlong(links, [], p)
    ensures Resolve(links, p) == Some(p)
  {
    ResolveThrough(links, [], p, [], MaxLinks);
    assert p + [] == p && [] + p == p;
  }

  /** `mkdir -p` walks through existing, link-free directories unchanged. */
  lemma {:induction false} MakeDirsThrough(fs: Entry, links: Links, base: Path, a: Path, b: Path, fuel: nat)
    requires NoLinksAlong(links, base, a)
    requires forall j | 1 <= j <= |a| :: IsDirAt(fs, base + a[..j])
    ensures MakeDirsFrom(fs, links, base, a + b, fuel) == MakeDirsFrom(fs, links, base + a, b, fuel)
    decreases |a|
  {
    if a == [] {
      assert a + b == b && base + a == base;
    } else {
      var x := base + [a[0]];
      assert a[..1] == [a[0]];
      assert (a + b)[0] == a[0] && (a + b)[1..] == a[1..] + b;
      forall j | 1 <= j <= |a[1..]| ensures x + a[1..][..j] !in links && IsDirAt(fs, x + a[1..][..j]) {
        assert x + a[1..][..j] == base + a[..j + 1];
      }
      MakeDirsThrough(fs, links, x, a[1..], b, fuel);
      assert x + a[1..] == base + a;
    }
  }

  /** A successful `mkdir -p` reaches the directory its path resolves to. */
  lemma {:induction false} MakeDirsResolves(fs: Entry, links: Links, base: Path, rest: Path, fuel: nat)
    requires MakeDirsFrom(fs, links, base, rest, fuel).1.Some?
    ensures ResolveFrom(links, base, rest, fuel) == MakeDirsFrom(fs, links, base, rest, fuel).1
    ensures rest != [] ==> IsDirAt(MakeDirsFrom(fs, links, base, rest, fuel).0, MakeDirsFrom(fs, links, base, rest, fuel).1.value)
    decreases |rest|
  {
    if rest != [] {
      var x := base + [rest[0]];
      if x !in links {
        match Lookup(fs, x)
        case Some(Dir(_)) =>
          MakeDirsResolves(fs, links, x, rest[1..], fuel);
        case None =>
          var fs' := Put(fs, x, Dir([])).value;
          PutThenLookup(fs, x, Dir([]));
          MakeDirsResolves(fs', links, x, rest[1..], fuel);
      } else {
        var t := ResolveFrom(links, [], links[x], fuel - 1).value;
        MakeDirsResolves(fs, links, t, rest[1..], fuel - 1);
      }
    }
  }

  /** `mkdir -p` replaces no file and no other non-directory entry. */
  lemma {:induction false} MakeDirsKeepsNonDirs(fs: Entry, links: Links, base: Path, rest: Path, fuel: nat, q: Path)
    requires Lookup(fs, q).Some? && !Lookup(fs, q).value.Dir?
    ensures Lookup(MakeDirsFrom(fs, links, base, rest, fuel).0, q) == Lookup(fs, q)
    decreases |rest|
  {
    if rest != [] {
      var x := base + [rest[0]];
      if x !in links {
        match Lookup(fs, x)
        case Some(Dir(_)) =>
          MakeDirsKeepsNonDirs(fs, links, x, rest[1..], fuel, q);
        case Some(_) =>
        case None =>
          if Put(fs, x, Dir([])).Success? {
            PutKeepsNonDirs(fs, x, Dir([]), q);
            MakeDirsKeepsNonDirs(Put(fs, x, Dir([])).value, links, x, rest[1..], fuel, q);
          }
      } else if fuel > 0 {
        match ResolveFrom(links, [], links[x], fuel - 1)
        case None =>
        case Some(t) =>
          MakeDirsKeepsNonDirs(fs, links, t, rest[1..], fuel - 1, q);
      }
    }
  }

  /** `mkdir -p` removes nothing that exists. */
  lemma {:induction false} MakeDirsKeepsPresent(fs: Entry, links: Links, base: Path, rest: Path, fuel: nat, q: Path)
    requires Lookup(fs, q).Some?
    ensures Lookup(MakeDirsFrom(fs, links, base, rest, fuel).0, q).Some?
    decreases |rest|
  {
    if rest != [] {
      var x := base + [rest[0]];
      if x !in links {
        match Lookup(fs, x)
        case Some(Dir(_)) =>
          MakeDirsKeepsPresent(fs, links, x, rest[1..], fuel, q);
        case Some(_) =>
        case None =>
          if Put(fs, x, Dir([])).Success? {
            PutKeepsPresent(fs, x, Dir([]), q);
            MakeDirsKeepsPresent(Put(fs, x, Dir([])).value, links, x, rest[1..], fuel, q);
          }
      } else if fuel > 0 {
        match ResolveFrom(links, [], links[x], fuel - 1)
        case None =>
        case Some(t) =>
          MakeDirsKeepsPresent(fs, links, t, rest[1..], fuel - 1, q);
      }
    }
  }

  // ---------------------------------------------------------------------
  // Extraction

  /** Placing a member replaces no file and no other non-directory entry. */
  lemma PlaceKeepsNonDirs(fs: Entry, links: Links, folder: Path, m: Member, q: Path)
    requires Selected(m)
    requires Lookup(fs, q).Some? && !Lookup(fs, q).value.Dir?
    ensures Lookup(PlaceMember(fs, links, folder, m).0, q) == Lookup(fs, q)
  {
    var parent := folder + m.path[..|m.path| - 1];
    MakeDirsKeepsNonDirs(fs, links, [], parent, MaxLinks, q);
    var made := MakeDirs(fs, links, parent);
    PlaceFileKeepsNonDirs(made.0, links, made.1, m.path[|m.path| - 1], m.mtime, q);
  }

  /** The file step replaces no non-directory entry. */
  lemma PlaceFileKeepsNonDirs(fs: Entry, links: Links, d: Option<Path>, name: string, mtime: int, q: Path)
    requires Lookup(fs, q).Some? && !Lookup(fs, q).value.Dir?
    ensures Lookup(PlaceFile(fs, links, d, name, mtime).0, q) == Lookup(fs, q)
  {
    if d.Some? {
      var x := d.value + [name];
      if x !in links && Lookup(fs, x).None? && Put(fs, x, File(mtime)).Success? {
        PutKeepsNonDirs(fs, x, File(mtime), q);
      }
    }
  }

  /** Placing a member removes nothing that exists. */
  lemma PlaceKeepsPresent(fs: Entry, links: Links, folder: Path, m: Member, q: Path)
    requires Selected(m)
    requires Lookup(fs, q).Some?
    ensures Lookup(PlaceMember(fs, links, folder, m).0, q).Some?
  {
    var parent := folder + m.path[..|m.path| - 1];
    MakeDirsKeepsPresent(fs, links, [], parent, MaxLinks, q);
    var made := MakeDirs(fs, links, parent);
    PlaceFileKeepsPresent(made.0, links, made.1, m.path[|m.path| - 1], m.mtime, q);
  }

  /** The file step removes nothing that exists. */
  lemma PlaceFileKeepsPresent(fs: Entry, links: Links, d: Option<Path>, name: string, mtime: int, q: Path)
    requires Lookup(fs, q).Some?
    ensures Lookup(PlaceFile(fs, links, d, name, mtime).0, q).Some?
  {
    if d.Some? {
      var x := d.value + [name];
      if x !in links && Lookup(fs, x).None? && Put(fs, x, File(mtime)).Success? {
        PutKeepsPresent(fs, x, File(mtime), q);
      }
    }
  }

  /** A member that is not lost leaves a link or an entry at its landing place. */
  lemma PlaceLands(fs: Entry, links: Links, folder: Path, m: Member)
    requires Selected(m)
    requires !PlaceMember(fs, links, folder, m).1
    ensures Landing(links, folder, m).Some?
    ensures var p := Landing(links, folder, m).value;
      p in links || Lookup(PlaceMember(fs, links, folder, m).0, p).Some?
  {
    var parent := folder + m.path[..|m.path| - 1];
    MakeDirsResolves(fs, links, [], parent, MaxLinks);
    var (fs1, d) := MakeDirs(fs, links, parent);
    var x := d.value + [m.path[|m.path| - 1]];
    if x !in links && Lookup(fs1, x).None? {
      PutThenLookup(fs1, x, File(m.mtime));
    }
  }

  /** Extraction overwrites no file and no other non-directory entry. */
  lemma {:induction false} ExtractKeepsNonDirs(fs: Entry, links: Links, folder: Path, ms: seq<Member>, q: Path)
    requires Lookup(fs, q).Some? && !Lookup(fs, q).value.Dir?
    ensures Lookup(Extract(fs, links, folder, ms).0, q) == Lookup(fs, q)
  {
    if ms != [] {
      ExtractKeepsNonDirs(fs, links, folder, ms[..|ms| - 1], q);
      var m := ms[|ms| - 1];
      if Selected(m) {
        PlaceKeepsNonDirs(Extract(fs, links, folder, ms[..|ms| - 1]).0, links, folder, m, q);
      }
    }
  }

  /** Extraction removes nothing that exists. */
  lemma {:induction false} ExtractKeepsPresent(fs: Entry, links: Links, folder: Path, ms: seq<Member>, q: Path)
    requires Lookup(fs, q).Some?
    ensures Lookup(Extract(fs, links, folder, ms).0, q).Some?
  {
    if ms != [] {
      ExtractKeepsPresent(fs, links, folder, ms[..|ms| - 1], q);
      var m := ms[|ms| - 1];
      if Selected(m) {
        PlaceKeepsPresent(Extract(fs, links, folder, ms[..|ms| - 1]).0, links, folder, m, q);
      }
    }
  }

  /** When no member is lost, a link or an entry sits at every selected member's landing place. */
  lemma {:induction false} ExtractLandsMembers(fs: Entry, links: Links, folder: Path, ms: seq<Member>)
    requires !Extract(fs, links, folder, ms).1
    ensures forall i | 0 <= i < |ms| && Selected(ms[i]) :: Landing(links, folder, ms[i]).Some?
    ensures forall i | 0 <= i < |ms| && Selected(ms[i]) ::
      Landing(links, folder, ms[i]).value in links || Lookup(Extract(fs, links, folder, ms).0, Landing(links, folder, ms[i]).value).Some?
  {
    if ms != [] {
      var front := ms[..|ms| - 1];
      ExtractLandsMembers(fs, links, folder, front);
      var fs1 := Extract(fs, links, folder, front).0;
      var m := ms[|ms| - 1];
      forall i | 0 <= i < |ms| && Selected(ms[i])
        ensures Landing(links, folder, ms[i]).Some?
        ensures Landing(links, folder, ms[i]).value in links || Lookup(Extract(fs, links, folder, ms).0, Landing(links, folder, ms[i]).value).Some?
      {
        if i < |ms| - 1 {
          assert ms[i] == front[i];
          var p := Landing(links, folder, ms[i]).value;
          if p !in links && Selected(m) {
            PlaceKeepsPresent(fs1, links, folder, m, p);
          }
        } else {
          PlaceLands(fs1, links, folder, m);
        }
      }
    }
  }

  // ---------------------------------------------------------------------
  // The whole restore

  /**
   * Whatever the outcome and whatever links exist, every file and other
   * non-directory entry that existed before is still there unchanged:
   * attachments are never clobbered.
   */
  lemma RestoreKeepsNonDirs(fs: Entry, links: Links, folder: Path, target: DirName, ms: seq<Member>, q: Path)
    requires target.parts != []
    requires Lookup(fs, q).Some? && !Lookup(fs, q).value.Dir?
    ensures Lookup(RestoreSteps(fs, links, folder, target, ms).fs, q) == Lookup(fs, q)
  {
    MakeDirsKeepsNonDirs(fs, links, [], folder, MaxLinks, q);
    var fs1 := MakeDirs(fs, links, folder).0;
    RestoreStepsTree(fs, links, folder, target, ms);
    if LinksDuringUnzip(fs, links, folder, target).Some? {
      ExtractKeepsNonDirs(fs1, LinksDuringUnzip(fs, links, folder, target).value, folder, ms, q);
    }
  }

  /** The tree after the steps is the one `mkdir -p` left, or the one unzip left. */
  lemma RestoreStepsTree(fs: Entry, links: Links, folder: Path, target: DirName, ms: seq<Member>)
    requires target.parts != []
    ensures var fs1 := MakeDirs(fs, links, folder).0;
      var r := RestoreSteps(fs, links, folder, target, ms);
      || r.fs == fs1
      || (LinksDuringUnzip(fs, links, folder, target).Some?
          && r.fs == Extract(fs1, LinksDuringUnzip(fs, links, folder, target).value, folder, ms).0)
  {
    var (fs1, made) := MakeDirs(fs, links, folder);
    var r := RestoreSteps(fs, links, folder, target, ms);
    if made.Some? {
      var dest := folder + [Filestore];
      match MakeLink(fs1, links, dest, target)
      case None =>
      case Some(links2) =>
        assert LinksDuringUnzip(fs, links, folder, target) == Some(links2);
        if exists i | 0 <= i < |ms| :: Selected(ms[i]) {
          var fs2 := Extract(fs1, links2, folder, ms).0;
          assert r.fs == fs2;
        }
    }
  }

  /**
   * On success, with whatever links existed before and whatever the link's
   * target, every selected member's landing place (resolved through the
   * links in force during unzip) holds a link or an entry.
   */
  lemma RestoreSuccessLands(fs: Entry, links: Links, folder: Path, target: DirName, ms: seq<Member>)
    requires target.parts != []
    requires RestoreSteps(fs, links, folder, target, ms).outcome.Pass?
    ensures LinksDuringUnzip(fs, links, folder, target).Some?
    ensures var during := LinksDuringUnzip(fs, links, folder, target).value;
      forall i | 0 <= i < |ms| && Selected(ms[i]) ::
        && Landing(during, folder, ms[i]).Some?
        && (Landing(during, folder, ms[i]).value in during
            || Lookup(RestoreSteps(fs, links, folder, target, ms).fs, Landing(during, folder, ms[i]).value).Some?)
  {
    var fs1 := MakeDirs(fs, links, folder).0;
    ExtractLandsMembers(fs1, LinksDuringUnzip(fs, links, folder, target).value, folder, ms);
  }

  /** For an absolute `data_dir`, the source's steps and the corrected ones coincide. */
  lemma AbsoluteDataDirAgrees(fs: Entry, links: Links, cwd: Path, dataDir: DirName, db: string, ms: seq<Member>)
    requires dataDir.absolute
    ensures RestoreAttachmentsAsWritten(fs, links, cwd, dataDir, db, ms) == RestoreAttachments(fs, links, cwd, dataDir, db, ms)
  {
    assert RestoreFolderName(dataDir, db) == DirName(true, RestoreFolder(cwd, dataDir, db));
  }

  /** A single link one level below `folder` lies on none of the folder's own prefixes. */
  lemma FolderLinkFree(folder: Path, x: string, t: Path)
    ensures NoLinksAlong(map[folder + [x] := t], [], folder)
  {
    forall j | 1 <= j <= |folder| ensures [] + folder[..j] !in map[folder + [x] := t] {
      assert |[] + folder[..j]| < |folder + [x]|;
    }
  }

  /** A successful `mkdir -p` of a link-free path ends at that path, a directory. */
  lemma MadeFolder(fs: Entry, links: Links, folder: Path)
    requires folder != [] && NoLinksAlong(links, [], folder)
    requires MakeDirs(fs, links, folder).1.Some?
    ensures MakeDirs(fs, links, folder).1 == Some(folder)
    ensures IsDirAt(MakeDirs(fs, links, folder).0, folder)
  {
    MakeDirsResolves(fs, links, [], folder, MaxLinks);
    NoLinksResolve(links, folder);
  }

  /** Every prefix of a directory's path is a directory. */
  lemma DirsAlong(fs: Entry, folder: Path)
    requires IsDirAt(fs, folder)
    ensures forall j | 1 <= j <= |folder| :: IsDirAt(fs, [] + folder[..j])
  {
    forall j | 1 <= j <= |folder| ensures IsDirAt(fs, [] + folder[..j]) {
      assert [] + folder[..j] == folder[..j];
      if j < |folder| {
        FoundBelowIsDir(fs, folder, folder[..j]);
      } else {
        assert folder[..j] == folder;
      }
    }
  }

  /**
   * While the link `folder/filestore` leads back to the folder, a member
   * `filestore/<rest>` lands at `<folder>/<rest>` when `rest` does not start
   * with `filestore` again.
   */
  lemma LandingDropsOneLevel(folder: Path, rest: Path, mtime: int)
    requires rest != [] && rest[0] != Filestore
    ensures Landing(map[folder + [Filestore] := folder], folder, Member([Filestore] + rest, mtime)) == Some(folder + rest)
  {
    var links := map[folder + [Filestore] := folder];
    var m := Member([Filestore] + rest, mtime);
    var init := rest[..|rest| - 1];
    assert m.path[..|m.path| - 1] == [Filestore] + init;
    assert m.path[|m.path| - 1] == rest[|rest| - 1];
    FolderLinkFree(folder, Filestore, folder);
    ResolveThrough(links, [], folder, [Filestore] + init, MaxLinks);
    assert [] + folder == folder;
    assert ([Filestore] + init)[0] == Filestore && ([Filestore] + init)[1..] == init;
    ResolveThrough(links, [], folder, [], MaxLinks - 1);
    assert folder + [] == folder;
    forall j | 1 <= j <= |init| ensures folder + init[..j] !in links {
      assert (folder + init[..j])[|folder|] == rest[0];
    }
    ResolveThrough(links, folder, init, [], MaxLinks - 1);
    assert init + [] == init;
    assert folder + init + [rest[|rest| - 1]] == folder + rest;
  }

  /**
   * From a clean state (no links, and nothing called `filestore` in the
   * folder once it is made), the corrected steps succeed exactly when the
   * folder can be made, some member is selected and none is lost; success
   * removes the link again, failure after `ln -s` leaves it.
   */
  lemma RestoreSucceedsIff(fs: Entry, cwd: Path, dataDir: DirName, db: string, ms: seq<Member>)
    requires var folder := RestoreFolder(cwd, dataDir, db);
      MakeDirs(fs, map[], folder).1.Some? ==> Lookup(MakeDirs(fs, map[], folder).0, folder + [Filestore]).None?
    ensures var folder := RestoreFolder(cwd, dataDir, db);
      var r := RestoreAttachments(fs, map[], cwd, dataDir, db, ms);
      var fs1 := MakeDirs(fs, map[], folder).0;
      var during := map[folder + [Filestore] := folder];
      && (r.outcome.Pass? <==>
            && MakeDirs(fs, map[], folder).1.Some?
            && (exists i | 0 <= i < |ms| :: Selected(ms[i]))
            && !Extract(fs1, during, folder, ms).1)
      && (r.outcome.Pass? ==> r.links == map[])
      && (r.outcome.Fail? && r.outcome.error != MkdirFailed ==> r.links == during)
      && (MakeDirs(fs, map[], folder).1.Some? ==> LinksDuringUnzip(fs, map[], folder, DirName(true, folder)) == Some(during))
  {
    var folder := RestoreFolder(cwd, dataDir, db);
    var target := DirName(true, folder);
    if MakeDirs(fs, map[], folder).1.Some? {
      CleanLinkSteps(fs, folder);
      assert LinksDuringUnzip(fs, map[], folder, target) == Some(map[folder + [Filestore] := folder]);
      StepsAfterLink(fs, map[], folder, target, ms);
    } else {
      assert RestoreSteps(fs, map[], folder, target, ms).outcome == Fail(MkdirFailed);
    }
  }

  /**
   * Once `mkdir -p` and `ln -s` succeeded, the steps succeed exactly when some
   * member is selected, none is lost and `rm` finds the link; every failure
   * leaves the links as `ln -s` made them.
   */
  lemma StepsAfterLink(fs: Entry, links: Links, folder: Path, target: DirName, ms: seq<Member>)
    requires target.parts != []
    requires LinksDuringUnzip(fs, links, folder, target).Some?
    ensures var during := LinksDuringUnzip(fs, links, folder, target).value;
      var r := RestoreSteps(fs, links, folder, target, ms);
      && (r.outcome.Pass? <==>
            && (exists i | 0 <= i < |ms| :: Selected(ms[i]))
            && !Extract(MakeDirs(fs, links, folder).0, during, folder, ms).1
            && RemoveLink(during, folder + [Filestore]).Some?)
      && (r.outcome.Pass? ==> r.links == RemoveLink(during, folder + [Filestore]).value)
      && (r.outcome.Fail? ==> r.links == during)
  {
    var (fs1, made) := MakeDirs(fs, links, folder);
    var during := LinksDuringUnzip(fs, links, folder, target).value;
    assert MakeLink(fs1, links, folder + [Filestore], target) == Some(during);
  }

  /** From a clean state, `ln -s` makes the one link `folder/filestore` and `rm` removes it again. */
  lemma CleanLinkSteps(fs: Entry, folder: Path)
    requires folder != [] && MakeDirs(fs, map[], folder).1.Some?
    requires Lookup(MakeDirs(fs, map[], folder).0, folder + [Filestore]).None?
    ensures var dest := folder + [Filestore];
      var during := map[dest := folder];
      && MakeLink(MakeDirs(fs, map[], folder).0, map[], dest, DirName(true, folder)) == Some(during)
      && RemoveLink(during, dest) == Some(map[])
  {
    var dest := folder + [Filestore];
    var during := map[dest := folder];
    MadeFolder(fs, map[], folder);
    var fs1 := MakeDirs(fs, map[], folder).0;
    assert dest[..|dest| - 1] == folder && dest[|dest| - 1] == Filestore;
    NoLinksResolve(map[], folder);
    assert LinkLocation(fs1, map[], dest, folder[|folder| - 1]) == Some(dest);
    FolderLinkFree(folder, Filestore, folder);
    NoLinksResolve(during, folder);
  }

  /**
   * A member `filestore/<db>/<rest>` (the layout of an archive made from
   * this database's own filestore) lands at `<folder>/<db>/<rest>`, one level
   * below where the folder's own files lie; after a successful restore it is
   * found there.
   */
  lemma NestedMemberLandsBelowDatabaseName(fs: Entry, cwd: Path, dataDir: DirName, db: string, ms: seq<Member>, i: nat, rest: Path)
    requires db != Filestore
    requires i < |ms| && ms[i].path == [Filestore, db] + rest
    requires var folder := RestoreFolder(cwd, dataDir, db);
      MakeDirs(fs, map[], folder).1.Some? ==> Lookup(MakeDirs(fs, map[], folder).0, folder + [Filestore]).None?
    ensures var folder := RestoreFolder(cwd, dataDir, db);
      Landing(map[folder + [Filestore] := folder], folder, ms[i]) == Some(folder + [db] + rest)
    ensures var r := RestoreAttachments(fs, map[], cwd, dataDir, db, ms);
      r.outcome.Pass? ==> Lookup(r.fs, RestoreFolder(cwd, dataDir, db) + [db] + rest).Some?
  {
    var folder := RestoreFolder(cwd, dataDir, db);
    var during := map[folder + [Filestore] := folder];
    assert ms[i].path == [Filestore] + ([db] + rest);
    LandingDropsOneLevel(folder, [db] + rest, ms[i].mtime);
    assert ms[i] == Member([Filestore] + ([db] + rest), ms[i].mtime);
    assert folder + ([db] + rest) == folder + [db] + rest;
    var r := RestoreAttachments(fs, map[], cwd, dataDir, db, ms);
    if r.outcome.Pass? {
      RestoreSucceedsIff(fs, cwd, dataDir, db, ms);
      RestoreSuccessLands(fs, map[], folder, DirName(true, folder), ms);
      assert Selected(ms[i]);
      assert folder + [db] + rest != folder + [Filestore] by {
        assert (folder + [db] + rest)[|folder|] == db;
      }
    }
  }

  /**
   * When `folder/filestore` already is a directory, `ln -s` puts the link
   * inside it (at `folder/filestore/<db>`), unzip writes below that real
   * directory, and `rm` refuses the directory: the steps never succeed, and
   * whenever the link was made it is left behind.
   */
  lemma ExistingFilestoreDirectoryFails(fs: Entry, cwd: Path, dataDir: DirName, db: string, ms: seq<Member>)
    requires var folder := RestoreFolder(cwd, dataDir, db);
      MakeDirs(fs, map[], folder).1.Some? && IsDirAt(MakeDirs(fs, map[], folder).0, folder + [Filestore])
    ensures var folder := RestoreFolder(cwd, dataDir, db);
      var r := RestoreAttachments(fs, map[], cwd, dataDir, db, ms);
      && r.outcome.Fail?
      && (r.outcome.error != LinkExists ==> r.links == map[folder + [Filestore, db] := folder])
  {
    var folder := RestoreFolder(cwd, dataDir, db);
    var dest := folder + [Filestore];
    MadeFolder(fs, map[], folder);
    var fs1 := MakeDirs(fs, map[], folder).0;
    assert dest[..|dest| - 1] == folder && dest[|dest| - 1] == Filestore;
    NoLinksResolve(map[], folder);
    var at := folder + [Filestore, db];
    assert dest + [db] == at;
    if MakeLink(fs1, map[], dest, DirName(true, folder)).Some? {
      assert LinkLocation(fs1, map[], dest, db) == Some(at);
      assert at[..|at| - 1] == dest;
      var during := map[at := folder];
      assert MakeLink(fs1, map[], dest, DirName(true, folder)) == Some(during);
      forall j | 1 <= j <= |folder| ensures [] + folder[..j] !in during {
        assert |[] + folder[..j]| < |at|;
      }
      NoLinksResolve(during, folder);
      assert dest !in during by { assert |dest| < |at|; }
      assert RemoveLink(during, dest) == None;
    }
  }

  /**
   * A second run after a failed one finds the old link `folder/filestore`
   * leading to the folder: `ln -s` follows it and makes a new link
   * `folder/<db>`, and `rm` removes only the old one, so the new link is
   * left behind whatever the outcome.
   */
  lemma RerunLeavesSecondLink(fs: Entry, cwd: Path, dataDir: DirName, db: string, ms: seq<Member>)
    requires db != Filestore
    requires var folder := RestoreFolder(cwd, dataDir, db);
      var links := map[folder + [Filestore] := folder];
      MakeDirs(fs, links, folder).1.Some? && Lookup(MakeDirs(fs, links, folder).0, folder + [db]).None?
    ensures var folder := RestoreFolder(cwd, dataDir, db);
      var r := RestoreAttachments(fs, map[folder + [Filestore] := folder], cwd, dataDir, db, ms);
      && r.outcome != Fail(LinkExists)
      && folder + [db] in r.links && r.links[folder + [db]] == folder
      && (r.outcome.Pass? ==> r.links == map[folder + [db] := folder])
  {
    var folder := RestoreFolder(cwd, dataDir, db);
    var dest := folder + [Filestore];
    var links := map[dest := folder];
    FolderLinkFree(folder, Filestore, folder);
    MadeFolder(fs, links, folder);
    var fs1 := MakeDirs(fs, links, folder).0;
    assert dest[..|dest| - 1] == folder && dest[|dest| - 1] == Filestore;
    NoLinksResolve(links, folder);
    var at := folder + [db];
    assert at != dest by { assert at[|folder|] == db; }
    assert LinkLocation(fs1, links, dest, db) == Some(at);
    assert at[..|at| - 1] == folder;
    var during := links[at := folder];
    assert MakeLink(fs1, links, dest, DirName(true, folder)) == Some(during);
    forall j | 1 <= j <= |folder| ensures [] + folder[..j] !in during {
      assert |[] + folder[..j]| < |at|;
    }
    NoLinksResolve(during, folder);
    assert RemoveLink(during, dest) == Some(during - {dest});
    assert during - {dest} == map[at := folder];
  }

  /**
   * With a relative `data_dir` the source's link target is read inside the
   * folder, where `<data_dir>/filestore/<db>` does not exist: the link
   * dangles, unzip cannot make any member's directory, and the steps fail
   * with the link left behind and nothing extracted.
   */
  lemma RelativeDataDirLosesEveryMember(fs: Entry, cwd: Path, dataDir: DirName, db: string, ms: seq<Member>)
    requires !dataDir.absolute && dataDir.parts != [] && dataDir.parts[0] != Filestore
    requires var folder := RestoreFolder(cwd, dataDir, db);
      && MakeDirs(fs, map[], folder).1.Some?
      && Lookup(MakeDirs(fs, map[], folder).0, folder + [Filestore]).None?
      && Lookup(MakeDirs(fs, map[], folder).0, folder + [dataDir.parts[0]]).None?
    ensures var folder := RestoreFolder(cwd, dataDir, db);
      var target := folder + dataDir.parts + [Filestore, db];
      var r := RestoreAttachmentsAsWritten(fs, map[], cwd, dataDir, db, ms);
      && r.outcome == (if exists i | 0 <= i < |ms| :: Selected(ms[i]) then Fail(MemberLost) else Fail(NothingMatched))
      && r.fs == MakeDirs(fs, map[], folder).0
      && r.links == map[folder + [Filestore] := target]
  {
    var folder := RestoreFolder(cwd, dataDir, db);
    var dest := folder + [Filestore];
    var name := RestoreFolderName(dataDir, db);
    var target := folder + dataDir.parts + [Filestore, db];
    MadeFolder(fs, map[], folder);
    var fs1 := MakeDirs(fs, map[], folder).0;
    assert dest[..|dest| - 1] == folder && dest[|dest| - 1] == Filestore;
    NoLinksResolve(map[], folder);
    assert LinkLocation(fs1, map[], dest, db) == Some(dest);
    assert Anchored(folder, name) == target;
    var during := map[dest := target];
    assert MakeLink(fs1, map[], dest, name) == Some(during);
    DanglingLinkLosesAll(fs1, folder, dataDir.parts, db, ms);
  }

  /** While `folder/filestore` dangles, every selected member is lost and the tree is untouched. */
  lemma {:induction false} DanglingLinkLosesAll(fs1: Entry, folder: Path, parts: Path, db: string, ms: seq<Member>)
    requires parts != [] && parts[0] != Filestore
    requires IsDirAt(fs1, folder) && Lookup(fs1, folder + [parts[0]]).None?
    ensures var target := folder + parts + [Filestore, db];
      Extract(fs1, map[folder + [Filestore] := target], folder, ms) == (fs1, exists i | 0 <= i < |ms| :: Selected(ms[i]))
  {
    if ms != [] {
      var front := ms[..|ms| - 1];
      DanglingLinkLosesAll(fs1, folder, parts, db, front);
      var m := ms[|ms| - 1];
      if Selected(m) {
        DanglingLinkLosesMember(fs1, folder, parts, db, m);
      }
      if exists i | 0 <= i < |ms| :: Selected(ms[i]) {
        var i :| 0 <= i < |ms| && Selected(ms[i]);
        if i < |ms| - 1 {
          assert front[i] == ms[i];
        }
      } else {
        forall i | 0 <= i < |front| ensures !Selected(front[i]) {
          assert front[i] == ms[i];
        }
      }
    }
  }

  /** One member through a dangling link: its directory cannot be made. */
  lemma DanglingLinkLosesMember(fs1: Entry, folder: Path, parts: Path, db: string, m: Member)
    requires parts != [] && parts[0] != Filestore
    requires IsDirAt(fs1, folder) && Lookup(fs1, folder + [parts[0]]).None?
    requires Selected(m)
    ensures var target := folder + parts + [Filestore, db];
      PlaceMember(fs1, map[folder + [Filestore] := target], folder, m) == (fs1, true)
  {
    var target := folder + parts + [Filestore, db];
    var dest := folder + [Filestore];
    var links := map[dest := target];
    var init := m.path[1..|m.path| - 1];
    assert m.path[..|m.path| - 1] == [Filestore] + init;
    FolderLinkFree(folder, Filestore, target);
    DirsAlong(fs1, folder);
    MakeDirsThrough(fs1, links, [], folder, [Filestore] + init, MaxLinks);
    assert [] + folder == folder;
    assert ([Filestore] + init)[0] == Filestore && ([Filestore] + init)[1..] == init;
    forall j | 1 <= j <= |target| ensures [] + target[..j] !in links {
      if j == |dest| {
        assert ([] + target[..j])[|folder|] == parts[0];
      }
    }
    ResolveThrough(links, [], target, [], MaxLinks - 1);
    assert [] + target == target && target + [] == target;
    assert target == (folder + [parts[0]]) + (parts[1..] + [Filestore, db]);
    LookupBelowMissing(fs1, folder + [parts[0]], target);
  }
}
