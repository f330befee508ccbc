/**
 * `find_workdir` and the accessors of `InstanceData`: the project's
 * instance data is a JSON dict, read from `.instance_data.json` in the
 * project directory or fetched from a URL. The directory tree is reduced to
 * the set of paths that name regular files, and the fetching and file
 * reading and writing are left to the caller.
 */
module Instance {
  import opened Wrappers
  import opened Strings
  import opened PyValue
  import opened PosixPath

  const InstanceDataFilename := ".instance_data.json"

  datatype InstanceError =
    | InstanceDataNotFound
    | RecursionLimitReached
    | AssertionFailed
    | NotAString
    | ExtendTypeError // `extend` of `None`, a boolean or an integer
    | UnorderedDict   // `extend` of a dict, whose key order the model does not fix

  predicate HasInstanceFile(files: set<string>, dir: string)
  {
    JoinPath(dir, InstanceDataFilename) in files
  }

  // ---------------------------------------------------------------------
  // The upward search

  /** The search stops at a parent that is empty or the root, however many slashes spell it. */
  predicate StopsAt(parent: string)
  {
    parent == "" || AllSlashes(parent)
  }

  /** As written, only the empty parent and `/` stop the search. */
  predicate StopsAsWritten(parent: string)
  {
    parent == "" || parent == "/"
  }

  /**
   * `find_workdir(path, raise_if_not_found)`: `path` if it holds the
   * instance file, else the search from its parent. The path is returned
   * as reached; making it absolute is left to the caller.
   */
  function FindWorkdirFrom(files: set<string>, path: string, raiseIfNotFound: bool): Result<Option<string>, InstanceError>
    decreases |path|
  {
    if HasInstanceFile(files, path) then Success(Some(path))
    else
      var parent := SplitHead(path);
      if StopsAt(parent) then
        if raiseIfNotFound then Failure(InstanceDataNotFound) else Success(None)
      else
        SplitHeadShrinks(path);
        FindWorkdirFrom(files, parent, raiseIfNotFound)
  }

  /** A missing path means the current directory. */
  function FindWorkdir(files: set<string>, cwd: string, path: Option<string>, raiseIfNotFound: bool): Result<Option<string>, InstanceError>
  {
    FindWorkdirFrom(files, path.GetOr(cwd), raiseIfNotFound)
  }

  /**
   * The search as written, with `depth` the number of calls Python's
   * recursion limit still allows.
   */
  function FindWorkdirAsWritten(files: set<string>, path: string, raiseIfNotFound: bool, depth: nat): Result<Option<string>, InstanceError>
    decreases depth
  {
    if depth == 0 then Failure(RecursionLimitReached)
    else if HasInstanceFile(files, path) then Success(Some(path))
    else
      var parent := SplitHead(path);
      if StopsAsWritten(parent) then
        if raiseIfNotFound then Failure(InstanceDataNotFound) else Success(None)
      else FindWorkdirAsWritten(files, parent, raiseIfNotFound, depth - 1)
  }

  /** The directories the search looks in, from `path` upward: each a shorter start of the one before. */
  function Searched(path: string): (r: seq<string>)
    ensures |r| >= 1 && r[0] == path
    ensures forall k | 0 <= k < |r| :: |r[k]| <= |path| && r[k] == path[..|r[k]|]
    ensures forall k | 0 < k < |r| :: |r[k]| < |r[k - 1]|
    decreases |path|
  {
    var parent := SplitHead(path);
    SplitHeadShrinks(path);
    SplitHeadIsPrefix(path);
    if StopsAt(parent) then [path]
    else
      var rest := Searched(parent);
      ConsPrefixes(path, parent, rest);
      [path] + rest
  }

  /** Putting a path in front of the shrinking prefixes of its parent keeps them shrinking prefixes. */
  lemma ConsPrefixes(path: string, parent: string, rest: seq<string>)
    requires |parent| < |path| && parent == path[..|parent|]
    requires |rest| >= 1 && rest[0] == parent
    requires forall k | 0 <= k < |rest| :: |rest[k]| <= |parent| && rest[k] == parent[..|rest[k]|]
    requires forall k | 0 < k < |rest| :: |rest[k]| < |rest[k - 1]|
    ensures var r := [path] + rest;
      && (forall k | 0 <= k < |r| :: |r[k]| <= |path| && r[k] == path[..|r[k]|])
      && (forall k | 0 < k < |r| :: |r[k]| < |r[k - 1]|)
  {
    var r := [path] + rest;
    forall k | 0 < k < |r| ensures |r[k]| <= |path| && r[k] == path[..|r[k]|] && |r[k]| < |r[k - 1]| {
      assert r[k] == rest[k - 1];
    }
  }

  /** The first of `dirs` that holds the instance file. */
  function FirstWithFile(files: set<string>, dirs: seq<string>): (r: Option<string>)
    ensures r.Some? <==> exists k | 0 <= k < |dirs| :: HasInstanceFile(files, dirs[k])
    ensures r.Some? ==> exists k | 0 <= k < |dirs| ::
      dirs[k] == r.value && HasInstanceFile(files, dirs[k]) && forall j | 0 <= j < k :: !HasInstanceFile(files, dirs[j])
  {
    if dirs == [] then None
    else if HasInstanceFile(files, dirs[0]) then Some(dirs[0])
    else
      var r := FirstWithFile(files, dirs[1..]);
      assert forall k | 1 <= k < |dirs| :: dirs[k] == dirs[1..][k - 1];
      r
  }

  /**
   * The search returns the first directory walking upward that holds the
   * instance file; when there is none it raises or returns nothing, as
   * asked.
   */
  lemma {:induction false} FindWorkdirIsFirstSearched(files: set<string>, path: string, raiseIfNotFound: bool)
    ensures FindWorkdirFrom(files, path, raiseIfNotFound) ==
      match FirstWithFile(files, Searched(path))
      case Some(d) => Success(Some(d))
      case None => if raiseIfNotFound then Failure(InstanceDataNotFound) else Success(None)
    decreases |path|
  {
    var parent := SplitHead(path);
    if !HasInstanceFile(files, path) && !StopsAt(parent) {
      SplitHeadShrinks(path);
      FindWorkdirIsFirstSearched(files, parent, raiseIfNotFound);
      assert Searched(path)[1..] == Searched(parent);
    }
  }

  lemma AllSlashesDoubleSlash(p: string)
    requires p == "//"
    ensures AllSlashes(p) && !StopsAsWritten(p)
  {
  }

  lemma {:induction false} AsWrittenLoopsAtDoubleSlash(files: set<string>, p: string, raiseIfNotFound: bool, depth: nat)
    requires p == "//" && !HasInstanceFile(files, p)
    ensures FindWorkdirAsWritten(files, p, raiseIfNotFound, depth) == Failure(RecursionLimitReached)
    decreases depth
  {
    if depth > 0 {
      DoubleSlashIsOwnHead(p);
      AllSlashesDoubleSlash(p);
      AsWrittenLoopsAtDoubleSlash(files, p, raiseIfNotFound, depth - 1);
    }
  }

  /**
   * Under `//`, a root Linux also accepts, the search as written never
   * stops on its own: `//` is its own parent and is not `/`, so it
   * recurses until Python's recursion limit, whatever that limit is.
   */
  lemma AsWrittenNeverStopsUnderDoubleSlash(files: set<string>, p: string, raiseIfNotFound: bool, depth: nat)
    requires p == "//srv" && !HasInstanceFile(files, p) && !HasInstanceFile(files, "//")
    ensures FindWorkdirAsWritten(files, p, raiseIfNotFound, depth) == Failure(RecursionLimitReached)
  {
    DoubleSlashTopHead(p);
    AllSlashesDoubleSlash("//");
    if depth > 0 {
      AsWrittenLoopsAtDoubleSlash(files, "//", raiseIfNotFound, depth - 1);
    }
  }

  /** The corrected search stops at `//` like at `/`. */
  lemma CorrectedStopsUnderDoubleSlash(files: set<string>, p: string, raiseIfNotFound: bool)
    requires p == "//srv" && !HasInstanceFile(files, p)
    ensures FindWorkdirFrom(files, p, raiseIfNotFound) == if raiseIfNotFound then Failure(InstanceDataNotFound) else Success(None)
  {
    DoubleSlashTopHead(p);
    AllSlashesDoubleSlash("//");
  }

  predicate StartsWithDoubleSlash(p: string)
  {
    |p| >= 2 && p[0] == '/' && p[1] == '/'
  }

  /** Away from `//`, a parent made of slashes is `/`, so both stop rules agree. */
  lemma StopRulesAgree(path: string)
    requires !StartsWithDoubleSlash(path)
    ensures StopsAt(SplitHead(path)) == StopsAsWritten(SplitHead(path))
    ensures !StartsWithDoubleSlash(SplitHead(path))
  {
    var parent := SplitHead(path);
    SplitHeadIsPrefix(path);
    if |parent| >= 2 {
      assert parent[0] == path[0] && parent[1] == path[1];
    }
    if parent != "" && AllSlashes(parent) {
      assert parent[0] == '/';
    }
  }

  /**
   * For a path not under `//`, and with more recursion left than the path
   * has characters, the search as written gives what the corrected one does.
   */
  lemma {:induction false} AsWrittenAgreesAwayFromDoubleSlash(files: set<string>, path: string, raiseIfNotFound: bool, depth: nat)
    requires !StartsWithDoubleSlash(path) && depth > |path|
    ensures FindWorkdirAsWritten(files, path, raiseIfNotFound, depth) == FindWorkdirFrom(files, path, raiseIfNotFound)
    decreases |path|
  {
    if !HasInstanceFile(files, path) {
      StopRulesAgree(path);
      var parent := SplitHead(path);
      if !StopsAt(parent) {
        SplitHeadShrinks(path);
        AsWrittenAgreesAwayFromDoubleSlash(files, parent, raiseIfNotFound, depth - 1);
      }
    }
  }

  // ---------------------------------------------------------------------
  // Accessors

  /** `name` with every space and every dot replaced by `_`. */
  function NormaliseName(s: string): (r: string)
    ensures |r| == |s|
    ensures forall i | 0 <= i < |s| :: r[i] == if s[i] == ' ' || s[i] == '.' then '_' else s[i]
  {
    ReplaceChar(ReplaceChar(s, ' ', '_'), '.', '_')
  }

  /** A normalised name holds no space and no dot, and normalising it again changes nothing. */
  lemma NormaliseNameIdempotent(s: string)
    ensures forall i | 0 <= i < |NormaliseName(s)| :: NormaliseName(s)[i] != ' ' && NormaliseName(s)[i] != '.'
    ensures NormaliseName(NormaliseName(s)) == NormaliseName(s)
  {
  }

  /**
   * What `extend` adds for one branch's `enabled_modules`: a list's items or,
   * for a string, one module per character; a missing key gives `None`,
   * which `extend` refuses.
   */
  function EnabledModules(branch: map<string, Value>): Result<seq<Value>, InstanceError>
  {
    match Iterate(Get(branch, "enabled_modules", Null))
    case Iterates(items) => Success(items)
    case NotIterable => Failure(ExtendTypeError)
    case KeysOfDict => Failure(UnorderedDict)
  }

  /** The modules of all branches, in branch order. */
  function Modules(branches: seq<map<string, Value>>): (r: Result<seq<Value>, InstanceError>)
    ensures r.Failure? ==> r.error == ExtendTypeError || r.error == UnorderedDict
  {
    if branches == [] then Success([])
    else
      match Modules(branches[..|branches| - 1])
      case Failure(e) => Failure(e)
      case Success(front) =>
        match EnabledModules(branches[|branches| - 1])
        case Failure(e) => Failure(e)
        case Success(items) => Success(front + items)
  }

  lemma ModulesStep(branches: seq<map<string, Value>>, i: nat)
    requires i < |branches|
    ensures Modules(branches[..i + 1]) ==
      match Modules(branches[..i])
      case Failure(e) => Failure(e)
      case Success(front) =>
        match EnabledModules(branches[i])
        case Failure(e) => Failure(e)
        case Success(items) => Success(front + items)
  {
    assert branches[..i + 1][..i] == branches[..i];
  }

  /** The result is the concatenation: the modules of `bs + cs` are those of `bs` followed by those of `cs`. */
  lemma {:induction false} ModulesOfConcat(bs: seq<map<string, Value>>, cs: seq<map<string, Value>>)
    ensures Modules(bs + cs).Success? <==> Modules(bs).Success? && Modules(cs).Success?
    ensures Modules(bs + cs).Success? ==> Modules(bs + cs).value == Modules(bs).value + Modules(cs).value
    ensures Modules(bs).Failure? ==> Modules(bs + cs) == Modules(bs)
    decreases |cs|
  {
    if cs == [] {
      assert bs + cs == bs;
    } else {
      var cs' := cs[..|cs| - 1];
      ModulesOfConcat(bs, cs');
      assert (bs + cs)[..|bs + cs| - 1] == bs + cs';
      assert (bs + cs)[|bs + cs| - 1] == cs[|cs| - 1];
    }
  }

  /**
   * One branch contributes what `extend` takes from its `enabled_modules`:
   * a list's items or a string's characters; a dict is refused as
   * unordered, and a missing key, `None`, a boolean or a number raise.
   */
  lemma ModulesOfOne(b: map<string, Value>)
    ensures Modules([b]) == EnabledModules(b)
    ensures var v := Get(b, "enabled_modules", Null);
      && (v.List? ==> Modules([b]) == Success(v.items))
      && (v.Str? ==> Modules([b]) == Success(Chars(v.s)))
      && (v.Dict? ==> Modules([b]) == Failure(UnorderedDict))
      && (v.Null? || v.Bool? || v.Int? ==> Modules([b]) == Failure(ExtendTypeError))
  {
    assert [b][..0] == [];
    if EnabledModules(b).Success? {
      assert [] + EnabledModules(b).value == EnabledModules(b).value;
    }
  }

  /** The `state` is `devel`, which it also is when missing. */
  predicate IsDevel(data: map<string, Value>)
  {
    Get(data, "state", Str("devel")) == Str("devel")
  }

  class InstanceData {
    /** The instance data dict. */
    var data: map<string, Value>
    /** The branch dicts, the values of `data['branches']` when the data was loaded. */
    var branches: seq<map<string, Value>>

    constructor (data: map<string, Value>, branches: seq<map<string, Value>>)
      ensures this.data == data && this.branches == branches
    {
      this.data := data;
      this.branches := branches;
    }

    /** `get_data(key, default)`. */
    function GetData(key: string, default: Value): (r: Value)
      reads this
      ensures key in data ==> r == data[key]
      ensures key !in data ==> r == default
    {
      Get(data, key, default)
    }

    /**
     * `get_docker_image`: in `devel` state the image id, or the database
     * name when the id is falsy; otherwise the image id alone. A `None`
     * result fails the assertion.
     */
    function GetDockerImage(): (r: Result<Value, InstanceError>)
      reads this
      ensures r.Success? ==> r.value != Null
      ensures r.Failure? ==> r.error == AssertionFailed
      ensures IsDevel(data) ==>
        (r.Success? <==> Truthy(Get(data, "docker_image_id", Null)) || Get(data, "db_name", Null) != Null)
      ensures IsDevel(data) && !Truthy(Get(data, "docker_image_id", Null)) && r.Success? ==> r.value == data["db_name"]
      ensures !IsDevel(data) ==> (r.Success? <==> Get(data, "docker_image_id", Null) != Null)
      ensures r.Success? && (!IsDevel(data) || Truthy(Get(data, "docker_image_id", Null))) ==> r.value == data["docker_image_id"]
    {
      var image := Get(data, "docker_image_id", Null);
      var ret := if IsDevel(data) then (if Truthy(image) then image else Get(data, "db_name", Null)) else image;
      if ret == Null then Failure(AssertionFailed) else Success(ret)
    }

    /** `get_docker_image_tag`: `latest` unless the data says otherwise. */
    function GetDockerImageTag(): (r: Value)
      reads this
      ensures "docker_image_tag_id" !in data ==> r == Str("latest")
      ensures "docker_image_tag_id" in data ==> r == data["docker_image_tag_id"]
    {
      Get(data, "docker_image_tag_id", Str("latest"))
    }

    /** `get_parent_docker_image_tag`: `latest` unless the data says otherwise. */
    function GetParentDockerImageTag(): (r: Value)
      reads this
      ensures "parent_docker_image_tag_id" !in data ==> r == Str("latest")
      ensures "parent_docker_image_tag_id" in data ==> r == data["parent_docker_image_tag_id"]
    {
      Get(data, "parent_docker_image_tag_id", Str("latest"))
    }

    /** `get_name`: the name must be present, and is returned normalised. */
    function GetName(): (r: Result<string, InstanceError>)
      reads this
      ensures r.Success? <==> "name" in data && data["name"].Str?
      ensures r.Success? ==> r.value == NormaliseName(data["name"].s)
      ensures "name" !in data || data["name"] == Null ==> r == Failure(AssertionFailed)
    {
      match Get(data, "name", Null)
      case Null => Failure(AssertionFailed)
      case Str(s) => Success(NormaliseName(s))
      case _ => Failure(NotAString)
    }

    /** `get_modules`: extend the result with each branch's `enabled_modules`. */
    method GetModules() returns (r: Result<seq<Value>, InstanceError>)
      ensures r == Modules(branches)
    {
      var ret: seq<Value> := [];
      for i := 0 to |branches|
        invariant Modules(branches[..i]) == Success(ret)
      {
        ModulesStep(branches, i);
        var enabled := EnabledModules(branches[i]);
        if enabled.Failure? {
          assert Modules(branches[..i + 1]) == Failure(enabled.error);
          assert Modules(branches) == Failure(enabled.error) by {
            ModulesOfConcat(branches[..i + 1], branches[i + 1..]);
            assert branches[..i + 1] + branches[i + 1..] == branches;
          }
          return Failure(enabled.error);
        }
        ret := ret + enabled.value;
      }
      assert branches[..|branches|] == branches;
      r := Success(ret);
    }

    /** `save_key_to_data_file`, without the file write: one key set, the rest kept. */
    method SaveKeyToDataFile(key: string, value: Value)
      modifies this
      ensures data == old(data)[key := value] && branches == old(branches)
      ensures GetData(key, Null) == value
      ensures forall k | k != key :: Get(data, k, Null) == Get(old(data), k, Null)
    {
      data := data[key := value];
    }
  }
}
