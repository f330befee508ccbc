/**
 * `GitRepo`: the remotes of a bare repository, named after the hosting of
 * their URL, and a two-way cache between remote names and URLs. The
 * repository's own remote configuration, which the source reads and changes
 * through `git remote`, is the field `configured`; the output of
 * `git branch -a` and the directory tree are inputs.
 */
module GitHelper {
  import opened Wrappers
  import opened Strings
  import opened FileSystem
  import opened Seqs

  datatype GitError = RemoteExists(name: string)

  // ---------------------------------------------------------------------
  // Remote names

  /** The name prefix: the first of `apertoso`, `github`, `gitlab` that occurs in the URL, else `rem`. */
  function RemotePrefix(url: string): string
  {
    if Contains(url, "apertoso") then "apertoso"
    else if Contains(url, "github") then "github"
    else if Contains(url, "gitlab") then "gitlab"
    else "rem"
  }

  /** The prefix names the hosting of the URL, and a generic one is used only when no keyword occurs. */
  lemma RemotePrefixIsFirstKeyword(url: string)
    ensures RemotePrefix(url) in {"apertoso", "github", "gitlab", "rem"}
    ensures RemotePrefix(url) != "rem" ==> Contains(url, RemotePrefix(url))
    ensures RemotePrefix(url) == "rem" <==> !Contains(url, "apertoso") && !Contains(url, "github") && !Contains(url, "gitlab")
    ensures RemotePrefix(url) == "gitlab" ==> !Contains(url, "github")
    ensures Contains(url, "apertoso") ==> RemotePrefix(url) == "apertoso"
  {
  }

  /** A repository of the `apertoso` organisation hosted on GitHub is named after the organisation. */
  lemma OrganisationBeforeHost(url: string)
    requires url == "git@github.com:apertoso/odoo.git"
    ensures Contains(url, "github") && RemotePrefix(url) == "apertoso"
  {
    OccursAtByChars(url, "github", 4);
    OccursAtByChars(url, "apertoso", 15);
  }

  lemma OccursAtByChars(s: string, pat: string, i: nat)
    requires i + |pat| <= |s| && forall j | 0 <= j < |pat| :: s[i + j] == pat[j]
    ensures OccursAt(s, pat, i) && Contains(s, pat)
  {
    assert s[i..i + |pat|] == pat;
    assert OccursAt(s, pat, i);
  }

  /** `'%s_%02d' % (prefix, n)`. */
  function RemoteName(prefix: string, n: nat): string
  {
    prefix + "_" + ZeroPad2(n)
  }

  lemma RemoteNameInjective(prefix: string, m: nat, n: nat)
    requires RemoteName(prefix, m) == RemoteName(prefix, n)
    ensures m == n
  {
    assert RemoteName(prefix, m)[|prefix| + 1..] == ZeroPad2(m);
    assert RemoteName(prefix, n)[|prefix| + 1..] == ZeroPad2(n);
    ZeroPad2Injective(m, n);
  }

  /** `n` is the smallest suffix whose name is not taken. */
  ghost predicate IsSmallestFree(taken: set<string>, prefix: string, n: nat)
  {
    RemoteName(prefix, n) !in taken && forall k: nat | k < n :: RemoteName(prefix, k) in taken
  }

  /** At most one suffix is the smallest free one. */
  lemma SmallestFreeUnique(taken: set<string>, prefix: string, m: nat, n: nat)
    requires IsSmallestFree(taken, prefix, m) && IsSmallestFree(taken, prefix, n)
    ensures m == n
  {
  }

  /** The names with suffixes `0..n-1`, in order. */
  function NamesBelow(prefix: string, n: nat): (r: seq<string>)
    ensures |r| == n && forall k | 0 <= k < n :: r[k] == RemoteName(prefix, k)
  {
    seq(n, k requires 0 <= k < n => RemoteName(prefix, k))
  }

  /** When the first `n` names are all taken, there are at least `n` taken names. */
  lemma TakenBound(taken: set<string>, prefix: string, n: nat)
    requires forall k: nat | k < n :: RemoteName(prefix, k) in taken
    ensures n <= |taken|
  {
    var names := NamesBelow(prefix, n);
    forall i, j | 0 <= i < j < n
      ensures names[i] != names[j]
    {
      if names[i] == names[j] {
        RemoteNameInjective(prefix, i, j);
      }
    }
    DistinctCardinality(names);
    assert Elements(names) <= taken;
    assert |Elements(names)| <= |taken| by {
      SubsetCardinality(Elements(names), taken);
    }
  }

  lemma SubsetCardinality(a: set<string>, b: set<string>)
    requires a <= b
    ensures |a| <= |b|
  {
    assert b == a + (b - a);
  }

  /**
   * The loop in `add_remote`: count up from `_00` until the name is not a
   * known remote. It ends because only finitely many names are known.
   */
  method FreeRemoteName(known: map<string, string>, prefix: string) returns (name: string, ghost suffix: nat)
    ensures IsSmallestFree(known.Keys, prefix, suffix) && name == RemoteName(prefix, suffix)
    ensures suffix <= |known|
  {
    var suffixNr: nat := 0;
    name := RemoteName(prefix, suffixNr);
    while name in known
      invariant name == RemoteName(prefix, suffixNr)
      invariant forall k: nat | k < suffixNr :: RemoteName(prefix, k) in known
      decreases |known| - suffixNr
    {
      TakenBound(known.Keys, prefix, suffixNr + 1);
      suffixNr := suffixNr + 1;
      name := RemoteName(prefix, suffixNr);
    }
    TakenBound(known.Keys, prefix, suffixNr);
    suffix := suffixNr;
  }

  // ---------------------------------------------------------------------
  // Remote-tracking branches

  /** `'remotes/{}/{}'.format(remote, branch)`. */
  function TrackingRef(remote: string, branch: string): string
  {
    "remotes/" + remote + "/" + branch
  }

  /** As written: the ref is looked for as a substring of the whole `git branch -a` output. */
  predicate TrackingBranchListedAsWritten(listing: string, ref: string)
  {
    Contains(listing, ref)
  }

  /**
   * As intended: some line of the listing is the ref, after the two
   * characters `git branch` puts in front of each name.
   */
  predicate TrackingBranchListed(listing: string, ref: string)
  {
    exists i | 2 <= i <= |listing| - |ref| ::
      && OccursAt(listing, ref, i)
      && (i == 2 || listing[i - 3] == '\n')
      && (i + |ref| == |listing| || listing[i + |ref|] == '\n')
  }

  /** A listed branch is also found by the substring test. */
  lemma ListedIsContained(listing: string, ref: string)
    requires TrackingBranchListed(listing, ref)
    ensures TrackingBranchListedAsWritten(listing, ref)
  {
  }

  /** The substring test, unlike the line test, finds `10.0` in a listing that only has `10.0-dev`. */
  lemma LongerBranchMatchesAsWritten(listing: string, ref: string)
    requires listing == "  remotes/github_00/10.0-dev\n"
    requires ref == TrackingRef("github_00", "10.0")
    ensures TrackingBranchListedAsWritten(listing, ref)
    ensures !TrackingBranchListed(listing, ref)
  {
    assert ref == "remotes/github_00/10.0" && |ref| == 22;
    assert listing == "  " + ref + "-dev\n" && |listing| == 29;
    assert listing[2..24] == ref;
    assert OccursAt(listing, ref, 2);
    forall i | 3 <= i <= 7
      ensures !OccursAt(listing, ref, i)
    {
      assert listing[i] != 'r' && ref[0] == 'r';
      assert listing[i..i + 22][0] == listing[i];
    }
    assert listing[24] == '-';
  }

  // ---------------------------------------------------------------------
  // Repositories and worktrees

  /** The repository path is set, is a directory, and holds `FETCH_HEAD`. */
  predicate RepoExists(fs: Entry, repoDir: Option<Path>)
  {
    repoDir.Some? && IsDirAt(fs, repoDir.value) && IsFileAt(fs, repoDir.value + ["FETCH_HEAD"])
  }

  /** What `worktree_check` runs after pruning. */
  datatype WorktreeAction =
    | Pull(dir: Path, checkout: string, remote: string, branch: string)
    | AddWorktree(dir: Path, start: string)
    | NoAction

  /** A worktree is a directory holding a `.git` file. */
  predicate WorktreeOk(fs: Entry, dir: Path)
  {
    IsDirAt(fs, dir) && IsFileAt(fs, dir + [".git"])
  }

  function WorktreeDecision(fs: Entry, dir: Path, update: bool, remote: string, branch: string): (r: WorktreeAction)
    ensures r.Pull? <==> WorktreeOk(fs, dir) && update
    ensures r.AddWorktree? <==> !WorktreeOk(fs, dir)
    ensures r.NoAction? <==> WorktreeOk(fs, dir) && !update
    ensures r.Pull? ==> r == Pull(dir, remote + "/" + branch, remote, branch)
    ensures r.AddWorktree? ==> r == AddWorktree(dir, remote + "/" + branch)
  {
    var ok := WorktreeOk(fs, dir);
    if ok && update then Pull(dir, remote + "/" + branch, remote, branch)
    else if !ok then AddWorktree(dir, remote + "/" + branch)
    else NoAction
  }

  // ---------------------------------------------------------------------
  // The repository object

  /**
   * The local remotes recorded after listing `configured`: every one of
   * them becomes known by name, and each of their URLs maps back to one of
   * the remotes carrying it (which one depends on the listing order); other
   * cached URLs are kept.
   */
  ghost predicate RecordsListing(names0: map<string, string>, urls0: map<string, string>, configured: map<string, string>,
                                 names: map<string, string>, urls: map<string, string>)
  {
    && names == names0 + configured
    && urls.Keys == urls0.Keys + configured.Values
    && (forall u | u in urls && u in configured.Values :: urls[u] in configured && configured[urls[u]] == u)
    && (forall u | u in urls && u !in configured.Values :: urls[u] == urls0[u])
  }

  lemma ValuesOfAdded(m: map<string, string>, n: string, u: string)
    requires n !in m
    ensures m[n := u].Values == m.Values + {u}
  {
    var m' := m[n := u];
    assert m'[n] == u;
    forall v | v in m'.Values ensures v in m.Values || v == u {
      var k :| k in m' && m'[k] == v;
      if k != n { assert m[k] == v; }
    }
    forall v | v in m.Values ensures v in m'.Values {
      var k :| k in m && m[k] == v;
      assert m'[k] == v;
    }
  }

  lemma ListingStep(names0: map<string, string>, urls0: map<string, string>, listed: map<string, string>,
                    names: map<string, string>, urls: map<string, string>, n: string, u: string)
    requires RecordsListing(names0, urls0, listed, names, urls) && n !in listed
    ensures RecordsListing(names0, urls0, listed[n := u], names[n := u], urls[u := n])
  {
    var listed', urls' := listed[n := u], urls[u := n];
    ValuesOfAdded(listed, n, u);
    assert names[n := u] == names0 + listed';
    assert urls'.Keys == urls0.Keys + listed'.Values;
    ListingBackStep(listed, urls, n, u, listed', urls');
    ListingKeepStep(urls0, listed, urls, n, u, listed', urls');
  }

  /** The URL just recorded points back to its remote; the earlier ones still do. */
  lemma ListingBackStep(listed: map<string, string>, urls: map<string, string>, n: string, u: string,
                        listed': map<string, string>, urls': map<string, string>)
    requires n !in listed && listed' == listed[n := u] && urls' == urls[u := n]
    requires listed'.Values == listed.Values + {u}
    requires forall v | v in urls && v in listed.Values :: urls[v] in listed && listed[urls[v]] == v
    ensures forall v | v in urls' && v in listed'.Values :: urls'[v] in listed' && listed'[urls'[v]] == v
  {
  }

  /** URLs no remote listed so far keep their cached remote. */
  lemma ListingKeepStep(urls0: map<string, string>, listed: map<string, string>, urls: map<string, string>, n: string, u: string,
                        listed': map<string, string>, urls': map<string, string>)
    requires n !in listed && listed' == listed[n := u] && urls' == urls[u := n]
    requires listed'.Values == listed.Values + {u}
    requires urls.Keys == urls0.Keys + listed.Values && urls'.Keys == urls0.Keys + listed'.Values
    requires forall v | v in urls && v !in listed.Values :: urls[v] == urls0[v]
    ensures forall v | v in urls' && v !in listed'.Values :: urls'[v] == urls0[v]
  {
  }

  /** The `for` loop of `find_remote`: record each listed remote forward and backward. */
  method RecordListing(names0: map<string, string>, urls0: map<string, string>, configured: map<string, string>)
    returns (names: map<string, string>, urls: map<string, string>)
    ensures RecordsListing(names0, urls0, configured, names, urls)
  {
    names, urls := names0, urls0;
    ghost var listed: map<string, string> := map[];
    var pending := configured.Keys;
    while pending != {}
      invariant pending <= configured.Keys
      invariant listed.Keys == configured.Keys - pending
      invariant forall n | n in listed :: listed[n] == configured[n]
      invariant RecordsListing(names0, urls0, listed, names, urls)
      decreases |pending|
    {
      var remote :| remote in pending;
      var remoteUrl := configured[remote];
      ListingStep(names0, urls0, listed, names, urls, remote, remoteUrl);
      names := names[remote := remoteUrl];
      urls := urls[remoteUrl := remote];
      listed := listed[remote := remoteUrl];
      pending := pending - {remote};
    }
    assert listed == configured;
  }

  /** The consistency of the caches with the repository survives recording its listing. */
  predicate CachesAgree(configured: map<string, string>, names: map<string, string>, urls: map<string, string>)
  {
    && (forall n | n in names :: n in configured && configured[n] == names[n])
    && (forall u | u in urls :: urls[u] in names && names[urls[u]] == u)
  }

  lemma ListingKeepsValid(names0: map<string, string>, urls0: map<string, string>, configured: map<string, string>)
    requires CachesAgree(configured, names0, urls0)
    ensures forall names, urls | RecordsListing(names0, urls0, configured, names, urls) ::
      CachesAgree(configured, names, urls) && configured.Keys <= names.Keys
  {
  }

  class GitRepo {
    /** `repo_dir`; `None` stands for a missing or empty path. */
    const repoDir: Option<Path>
    const cloneUrl: string
    const branchName: string
    /** The repository's remotes: name to URL, as `git remote` and `git remote get-url` report them. */
    var configured: map<string, string>
    /** `remote_names`: remote name to URL. */
    var remoteNames: map<string, string>
    /** `remote_urls`: URL to remote name. */
    var remoteUrls: map<string, string>

    /** The caches agree with the repository and with each other. */
    ghost predicate Valid()
      reads this
    {
      "" !in configured && CachesAgree(configured, remoteNames, remoteUrls)
    }

    constructor (repoDir: Option<Path>, cloneUrl: string, branchName: string, configured: map<string, string>)
      requires "" !in configured
      ensures Valid()
      ensures this.repoDir == repoDir && this.cloneUrl == cloneUrl && this.branchName == branchName
      ensures this.configured == configured && remoteNames == map[] && remoteUrls == map[]
    {
      this.repoDir := repoDir;
      this.cloneUrl := cloneUrl;
      this.branchName := branchName;
      this.configured := configured;
      remoteNames := map[];
      remoteUrls := map[];
    }

    /** `check_repo_exists`. */
    predicate CheckRepoExists(fs: Entry)
    {
      RepoExists(fs, repoDir)
    }

    /**
     * `find_remote`: a cached URL is answered without listing the remotes;
     * otherwise every remote is recorded both ways before the lookup.
     */
    method FindRemote(url: string) returns (r: Option<string>)
      requires Valid()
      modifies this
      ensures Valid() && configured == old(configured)
      ensures url in old(remoteUrls) ==>
        r == Some(old(remoteUrls)[url]) && remoteNames == old(remoteNames) && remoteUrls == old(remoteUrls)
      ensures url !in old(remoteUrls) ==>
        RecordsListing(old(remoteNames), old(remoteUrls), configured, remoteNames, remoteUrls)
      ensures r.Some? <==> url in old(remoteUrls) || url in configured.Values
      ensures r.Some? ==> url in remoteUrls && r.value == remoteUrls[url] && r.value in configured && configured[r.value] == url
    {
      if url in remoteUrls {
        return Some(remoteUrls[url]);
      }
      ListingKeepsValid(remoteNames, remoteUrls, configured);
      var names, urls := RecordListing(remoteNames, remoteUrls, configured);
      remoteNames, remoteUrls := names, urls;
      if url in urls {
        return Some(urls[url]);
      }
      return None;
    }

    /**
     * `add_remote`: the smallest free name for the URL's prefix, added to
     * the repository and to both caches. `git remote add` refuses a name the
     * repository already has.
     */
    method AddRemote(url: string) returns (r: Result<string, GitError>, ghost suffix: nat)
      requires Valid()
      modifies this
      ensures IsSmallestFree(old(remoteNames).Keys, RemotePrefix(url), suffix)
      ensures r.Failure? <==> RemoteName(RemotePrefix(url), suffix) in old(configured)
      ensures r.Failure? ==> r.error == RemoteExists(RemoteName(RemotePrefix(url), suffix))
      ensures r.Failure? ==> configured == old(configured) && remoteNames == old(remoteNames) && remoteUrls == old(remoteUrls)
      ensures r.Success? ==>
        && r.value == RemoteName(RemotePrefix(url), suffix)
        && configured == old(configured)[r.value := url]
        && remoteNames == old(remoteNames)[r.value := url]
        && remoteUrls == old(remoteUrls)[url := r.value]
      ensures Valid()
    {
      var prefix := RemotePrefix(url);
      var name;
      name, suffix := FreeRemoteName(remoteNames, prefix);
      if name in configured {
        return Failure(RemoteExists(name)), suffix;
      }
      configured := configured[name := url];
      remoteNames := remoteNames[name := url];
      remoteUrls := remoteUrls[url := name];
      r := Success(name);
    }

    /**
     * `get_remote`: the remote already carrying the clone URL, or a new
     * one. The listing makes every existing remote known first, so the new
     * name never clashes with the repository's.
     */
    method GetRemote() returns (r: Result<string, GitError>)
      requires Valid()
      modifies this
      ensures Valid() && r.Success?
      ensures r.value in remoteNames && remoteNames[r.value] == cloneUrl
      ensures cloneUrl in remoteUrls && remoteUrls[cloneUrl] == r.value
      ensures cloneUrl in old(remoteUrls) || cloneUrl in old(configured).Values ==> configured == old(configured)
      ensures cloneUrl !in old(remoteUrls) && cloneUrl !in old(configured).Values ==>
        && r.value !in old(configured)
        && configured == old(configured)[r.value := cloneUrl]
        && (exists n: nat :: IsSmallestFree(old(configured).Keys + old(remoteNames).Keys, RemotePrefix(cloneUrl), n)
                             && r.value == RemoteName(RemotePrefix(cloneUrl), n))
    {
      var found := FindRemote(cloneUrl);
      if found.Some? && found.value != "" {
        return Success(found.value);
      }
      assert configured.Keys <= remoteNames.Keys;
      assert remoteNames.Keys == old(configured).Keys + old(remoteNames).Keys;
      ghost var suffix;
      r, suffix := AddRemote(cloneUrl);
    }

    /**
     * `check_remote_tracking_branch_exists`, with the branch listing as
     * input and the line test in place of the substring test.
     */
    method CheckRemoteTrackingBranchExists(listing: string) returns (r: bool)
      requires Valid()
      modifies this
      ensures Valid()
      ensures cloneUrl in remoteUrls && remoteUrls[cloneUrl] in remoteNames && remoteNames[remoteUrls[cloneUrl]] == cloneUrl
      ensures r == TrackingBranchListed(listing, TrackingRef(remoteUrls[cloneUrl], branchName))
      ensures cloneUrl in old(remoteUrls) || cloneUrl in old(configured).Values ==> configured == old(configured)
      ensures cloneUrl !in old(remoteUrls) && cloneUrl !in old(configured).Values ==>
        && remoteUrls[cloneUrl] !in old(configured)
        && configured == old(configured)[remoteUrls[cloneUrl] := cloneUrl]
        && (exists n: nat :: IsSmallestFree(old(configured).Keys + old(remoteNames).Keys, RemotePrefix(cloneUrl), n)
                             && remoteUrls[cloneUrl] == RemoteName(RemotePrefix(cloneUrl), n))
    {
      var remote := GetRemote();
      r := TrackingBranchListed(listing, TrackingRef(remote.value, branchName));
    }

    /** `worktree_check`: pull a valid worktree when asked to, add a missing one, else leave it. */
    method WorktreeCheck(fs: Entry, worktreeDir: Path, updateWorkdir: bool) returns (r: WorktreeAction)
      requires Valid()
      modifies this
      ensures Valid()
      ensures r.Pull? <==> WorktreeOk(fs, worktreeDir) && updateWorkdir
      ensures r.AddWorktree? <==> !WorktreeOk(fs, worktreeDir)
      ensures cloneUrl in remoteUrls && remoteUrls[cloneUrl] in remoteNames && remoteNames[remoteUrls[cloneUrl]] == cloneUrl
      ensures r.Pull? ==> (r.dir == worktreeDir && r.remote == remoteUrls[cloneUrl] &&
        r.branch == branchName && r.checkout == r.remote + "/" + branchName)
      ensures r.AddWorktree? ==> r.dir == worktreeDir && r.start == remoteUrls[cloneUrl] + "/" + branchName
      ensures cloneUrl in old(remoteUrls) || cloneUrl in old(configured).Values ==> configured == old(configured)
      ensures cloneUrl !in old(remoteUrls) && cloneUrl !in old(configured).Values ==>
        && remoteUrls[cloneUrl] !in old(configured)
        && configured == old(configured)[remoteUrls[cloneUrl] := cloneUrl]
        && (exists n: nat :: IsSmallestFree(old(configured).Keys + old(remoteNames).Keys, RemotePrefix(cloneUrl), n)
                             && remoteUrls[cloneUrl] == RemoteName(RemotePrefix(cloneUrl), n))
    {
      var remote := GetRemote();
      r := WorktreeDecision(fs, worktreeDir, updateWorkdir, remote.value, branchName);
    }
  }

  /** A `FETCH_HEAD` file can only be found inside a directory, so the directory test never decides. */
  lemma RepoExistsIffFetchHead(fs: Entry, repoDir: Option<Path>)
    ensures RepoExists(fs, repoDir) <==> repoDir.Some? && IsFileAt(fs, repoDir.value + ["FETCH_HEAD"])
  {
    if repoDir.Some? && IsFileAt(fs, repoDir.value + ["FETCH_HEAD"]) {
      ParentOfFoundIsDir(fs, repoDir.value, "FETCH_HEAD");
    }
  }

  lemma {:induction false} ParentOfFoundIsDir(e: Entry, p: Path, name: string)
    requires Lookup(e, p + [name]).Some?
    ensures IsDirAt(e, p)
    decreases |p|
  {
    if p == [] {
      assert ([] + [name])[1..] == [];
    } else {
      assert (p + [name])[0] == p[0] && (p + [name])[1..] == p[1..] + [name];
      var i := ChildIndex(e.children, p[0]).value;
      ParentOfFoundIsDir(e.children[i].1, p[1..], name);
    }
  }
}
