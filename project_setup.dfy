/**
 * The helpers that set up a development project: the translation of a
 * module's external dependencies into package names, the Odoo branches to
 * fetch, the `RUN` fragments and the rules of the generated Dockerfile, and
 * the clone-or-fetch decision per repository. The file system is the
 * `FileSystem` tree, the evaluated manifest is an input, and writing files
 * is left to the caller: the Dockerfile is returned as its lines.
 */
module ProjectSetup {
  import opened Wrappers
  import opened Strings
  import opened PyValue
  import opened FileSystem
  import GitHelper

  // ---------------------------------------------------------------------
  // External dependencies

  /** `EXTERNAL_DEPENDENCIES_MAP['python']`: import names to pip package names. */
  const PythonDependencies: map<string, string> := map[
    "Asterisk" := "py-Asterisk",
    "coda" := "pycoda",
    "cups" := "pycups",
    "dateutil" := "python-dateutil",
    "ldap" := "python-ldap",
    "serial" := "pyserial",
    "Crypto.Cipher.DES3" := "pycrypto",
    "usb.core" := "pyusb",
    "aeroolib" := "git+https://github.com/aeroo/aeroolib.git#egg=aeroolib",
    "bs4" := "beautifulsoup4"
  ]

  /** `EXTERNAL_DEPENDENCIES_MAP['bin']`: executables to apt package names. */
  const BinDependencies: map<string, string> := map[
    "/usr/bin/java" := "default-jre-headless",
    "/usr/sbin/cupsctl" := "cups-client"
  ]

  /** `EXTERNAL_DEPENDENCIES_MAP.get(key, {})`. */
  function DependencyTable(key: string): map<string, string>
  {
    if key == "python" then PythonDependencies
    else if key == "bin" then BinDependencies
    else map[]
  }

  /** A list or a dict cannot be a dict key: looking either up raises TypeError. */
  predicate Hashable(v: Value)
  {
    !v.List? && !v.Dict?
  }

  /** `table.get(item, item)`. */
  function MapItem(table: map<string, string>, item: Value): Result<Value, SetupError>
  {
    if !Hashable(item) then Failure(Unhashable)
    else if item.Str? && item.s in table then Success(Str(table[item.s]))
    else Success(item)
  }

  /**
   * The list comprehension: one item per dependency, in order, translated
   * when the table knows it; an unhashable item makes the lookup raise.
   */
  function MapDependencies(key: string, deps: seq<Value>): (r: Result<seq<Value>, SetupError>)
    ensures r.Failure? <==> exists i | 0 <= i < |deps| :: !Hashable(deps[i])
    ensures r.Failure? ==> r.error == Unhashable
    ensures r.Success? ==> |r.value| == |deps| && forall i | 0 <= i < |deps| :: MapItem(DependencyTable(key), deps[i]) == Success(r.value[i])
  {
    if deps == [] then Success([])
    else
      var front := deps[..|deps| - 1];
      var last := deps[|deps| - 1];
      assert forall i | 0 <= i < |front| :: front[i] == deps[i];
      match MapDependencies(key, front)
      case Failure(e) => Failure(e)
      case Success(mapped) =>
        match MapItem(DependencyTable(key), last)
        case Failure(e) => Failure(e)
        case Success(v) => Success(mapped + [v])
  }

  lemma PythonNamesNotKeys()
    ensures forall k | k in PythonDependencies :: PythonDependencies[k] !in PythonDependencies
  {
  }

  lemma BinNamesNotKeys()
    ensures forall k | k in BinDependencies :: BinDependencies[k] !in BinDependencies
  {
  }

  /**
   * No package name in the table is itself a name the table translates,
   * so translating an already translated list changes nothing; an item the
   * table does not know is kept as it is.
   */
  lemma MapDependenciesIdempotent(key: string, deps: seq<Value>)
    requires MapDependencies(key, deps).Success?
    ensures MapDependencies(key, MapDependencies(key, deps).value) == MapDependencies(key, deps)
    ensures forall i | 0 <= i < |deps| :: !(deps[i].Str? && deps[i].s in DependencyTable(key)) ==>
      MapDependencies(key, deps).value[i] == deps[i]
  {
    PythonNamesNotKeys();
    BinNamesNotKeys();
    var mapped := MapDependencies(key, deps).value;
    var table := DependencyTable(key);
    forall i | 0 <= i < |mapped|
      ensures Hashable(mapped[i]) && MapItem(table, mapped[i]) == Success(mapped[i])
    {
      assert MapItem(table, deps[i]) == Success(mapped[i]);
    }
    var again := MapDependencies(key, mapped);
    assert again.Success?;
    assert again.value == mapped;
  }

  datatype SetupError =
    | NoSuchEntry     // `os.stat` of a missing path
    | BadManifest     // a manifest or `external_dependencies` without `.get`, or dependencies that are not iterable
    | Unhashable      // a list or dict dependency, looked up in the table
    | UnorderedDict   // dependencies given as a dict, whose key order the model does not fix

  /** The module's manifest file. */
  const ManifestName := "__openerp__.py"

  /**
   * `external_dependencies.get(key, [])`, translated: the comprehension goes
   * through a list's items or a string's characters.
   */
  function MappedDependencies(external: map<string, Value>, key: string): Result<seq<Value>, SetupError>
  {
    match Iterate(Get(external, key, List([])))
    case Iterates(deps) => MapDependencies(key, deps)
    case NotIterable => Failure(BadManifest)
    case KeysOfDict => Failure(UnorderedDict)
  }

  /**
   * The part of `parse_openerp_module` after the manifest is evaluated:
   * the translated `python` and `bin` dependencies, in that order.
   */
  function ManifestDependencies(manifest: Value): Result<(seq<Value>, seq<Value>), SetupError>
  {
    if !manifest.Dict? then Failure(BadManifest)
    else
      match Get(manifest.fields, "external_dependencies", Dict(map[]))
      case Dict(external) =>
        (match MappedDependencies(external, "bin")
         case Failure(e) => Failure(e)
         case Success(bin) =>
           match MappedDependencies(external, "python")
           case Failure(e) => Failure(e)
           case Success(python) => Success((python, bin)))
      case _ => Failure(BadManifest)
  }

  /**
   * `parse_openerp_module`: no dependencies for anything but a directory
   * holding a manifest. A missing path makes `os.stat` raise.
   */
  function ParseOpenerpModule(fs: Entry, modulePath: Path, manifest: Value): (r: Result<(seq<Value>, seq<Value>), SetupError>)
    ensures Lookup(fs, modulePath).None? <==> r == Failure(NoSuchEntry)
    ensures Lookup(fs, modulePath).Some? && !IsDirAt(fs, modulePath) ==> r == Success(([], []))
  {
    match Lookup(fs, modulePath)
    case None => Failure(NoSuchEntry)
    case Some(Dir(cs)) =>
      if ManifestName in Names(cs) then ManifestDependencies(manifest) else Success(([], []))
    case Some(_) => Success(([], []))
  }

  /** The directory lists an entry called like the manifest. */
  predicate ManifestEntryAt(fs: Entry, modulePath: Path)
  {
    Lookup(fs, modulePath + [ManifestName]).Some?
  }

  /**
   * Dependencies are read only from a directory listing a manifest, and
   * then both lists keep the manifest's length and order.
   */
  lemma ParseOpenerpModuleContents(fs: Entry, modulePath: Path, manifest: Value)
    ensures IsDirAt(fs, modulePath) && !ManifestEntryAt(fs, modulePath) ==>
      ParseOpenerpModule(fs, modulePath, manifest) == Success(([], []))
    ensures var r := ParseOpenerpModule(fs, modulePath, manifest);
      r.Success? && (r.value.0 != [] || r.value.1 != []) ==> IsDirAt(fs, modulePath) && ManifestEntryAt(fs, modulePath)
    ensures var r := ParseOpenerpModule(fs, modulePath, manifest);
      r.Success? && IsDirAt(fs, modulePath) && ManifestEntryAt(fs, modulePath) ==>
        && manifest.Dict?
        && Get(manifest.fields, "external_dependencies", Dict(map[])).Dict?
        && var external := Get(manifest.fields, "external_dependencies", Dict(map[])).fields;
           && Iterate(Get(external, "python", List([]))).Iterates? && Iterate(Get(external, "bin", List([]))).Iterates?
           && MapDependencies("python", Iterate(Get(external, "python", List([]))).items) == Success(r.value.0)
           && MapDependencies("bin", Iterate(Get(external, "bin", List([]))).items) == Success(r.value.1)
  {
    var r := ParseOpenerpModule(fs, modulePath, manifest);
    if IsDirAt(fs, modulePath) {
      var cs := Lookup(fs, modulePath).value.children;
      LookupChild(fs, modulePath, ManifestName);
      assert ManifestName in Names(cs) <==> ChildIndex(cs, ManifestName).Some?;
    }
  }

  lemma {:induction false} LookupChild(e: Entry, p: Path, name: string)
    requires IsDirAt(e, p)
    ensures Lookup(e, p + [name]) ==
      match ChildIndex(Lookup(e, p).value.children, name)
      case Some(i) => Some(Lookup(e, p).value.children[i].1)
      case None => None
    decreases |p|
  {
    if p == [] {
      assert [] + [name] == [name];
      assert [name][1..] == [];
    } else {
      assert (p + [name])[0] == p[0] && (p + [name])[1..] == p[1..] + [name];
      var i := ChildIndex(e.children, p[0]).value;
      LookupChild(e.children[i].1, p[1..], name);
    }
  }

  // ---------------------------------------------------------------------
  // Odoo branches

  function OdooBranch(version: Value): map<string, Value>
  {
    map["gitproject" := Str("odoo"), "git_path_ssh" := Str("git@github.com:odoo/odoo.git"), "branch" := version]
  }

  function EnterpriseBranch(version: Value): map<string, Value>
  {
    map["gitproject" := Str("odoo-enterprise"), "git_path_ssh" := Str("git@github.com:apertoso/odoo-enterprise.git"),
        "branch" := version]
  }

  /**
   * `get_odoo_branches`: Odoo itself first, then the enterprise repository
   * when the instance asks for it, both at the instance's Odoo version.
   */
  function GetOdooBranches(data: map<string, Value>): (r: seq<map<string, Value>>)
    ensures |r| == if Truthy(Get(data, "odoo_enterprise", Null)) then 2 else 1
    ensures r[0] == OdooBranch(Get(data, "odoo_version", Null))
    ensures |r| == 2 ==> r[1] == EnterpriseBranch(Get(data, "odoo_version", Null))
    ensures forall i | 0 <= i < |r| :: "branch" in r[i] && r[i]["branch"] == Get(data, "odoo_version", Null)
  {
    var version := Get(data, "odoo_version", Null);
    [OdooBranch(version)] + if Truthy(Get(data, "odoo_enterprise", Null)) then [EnterpriseBranch(version)] else []
  }

  // ---------------------------------------------------------------------
  // RUN fragments

  const RunPrefix := "RUN set -x && "
  const PipInstall := "    pip install "
  const AptInstall := "    apt-get install -y "
  const Continuation := "\\\n"

  /** `'        {} '.format(module)`. */
  function ModuleLine(m: string): string
  {
    "        " + m + " "
  }

  function ModuleLines(modules: seq<string>): (r: seq<string>)
    ensures |r| == |modules| && forall i | 0 <= i < |modules| :: r[i] == ModuleLine(modules[i])
  {
    seq(|modules|, i requires 0 <= i < |modules| => ModuleLine(modules[i]))
  }

  /** The statements list: the `RUN` line, the install command, then one line per module. */
  function DepsStatements(install: string, modules: seq<string>): (r: seq<string>)
    ensures |r| == |modules| + 2
  {
    [RunPrefix, install] + ModuleLines(modules)
  }

  /** The statements joined by a backslash and a newline. */
  function DepsText(install: string, modules: seq<string>): string
  {
    Join(DepsStatements(install, modules), Continuation)
  }

  /** The loop shared by `get_extra_deps_pip` and `get_extra_deps_apt`. */
  method BuildStatements(install: string, modules: seq<string>) returns (statements: seq<string>)
    ensures statements == DepsStatements(install, modules)
  {
    statements := [RunPrefix, install];
    for i := 0 to |modules|
      invariant statements == DepsStatements(install, modules[..i])
    {
      assert ModuleLines(modules[..i + 1]) == ModuleLines(modules[..i]) + [ModuleLine(modules[i])];
      statements := statements + [ModuleLine(modules[i])];
    }
    assert modules[..|modules|] == modules;
  }

  method GetExtraDepsPip(modules: seq<string>) returns (r: string)
    ensures r == DepsText(PipInstall, modules)
  {
    var statements := BuildStatements(PipInstall, modules);
    r := Join(statements, Continuation);
  }

  method GetExtraDepsApt(modules: seq<string>) returns (r: string)
    ensures r == DepsText(AptInstall, modules)
  {
    var statements := BuildStatements(AptInstall, modules);
    r := Join(statements, Continuation);
  }

  /** Each part after the first, with the separator in front. */
  function Prefixed(sep: string, parts: seq<string>): (r: seq<string>)
    ensures |r| == |parts| && forall i | 0 <= i < |parts| :: r[i] == sep + parts[i]
  {
    seq(|parts|, i requires 0 <= i < |parts| => sep + parts[i])
  }

  lemma {:induction false} JoinIsPrefixedConcat(first: string, rest: seq<string>, sep: string)
    ensures Join([first] + rest, sep) == first + Concat(Prefixed(sep, rest))
    decreases |rest|
  {
    if rest == [] {
      assert [first] + rest == [first];
      assert Concat(Prefixed(sep, rest)) == "";
    } else {
      JoinIsPrefixedConcat(rest[0], rest[1..], sep);
      assert ([first] + rest)[1..] == [rest[0]] + rest[1..];
      assert Prefixed(sep, rest)[1..] == Prefixed(sep, rest[1..]);
      assert first + (sep + (rest[0] + Concat(Prefixed(sep, rest[1..])))) ==
        first + ((sep + rest[0]) + Concat(Prefixed(sep, rest[1..])));
    }
  }

  /**
   * One `RUN` instruction continued over several lines: the install
   * command on the second, then each module on a line of its own.
   */
  lemma DepsTextClosedForm(install: string, modules: seq<string>)
    ensures DepsText(install, modules) ==
      RunPrefix + Continuation + install + Concat(Prefixed(Continuation, ModuleLines(modules)))
  {
    JoinTwoThenRest(RunPrefix, install, ModuleLines(modules), Continuation);
    assert DepsStatements(install, modules) == [RunPrefix, install] + ModuleLines(modules);
  }

  lemma JoinTwoThenRest(a: string, b: string, rest: seq<string>, sep: string)
    ensures Join([a, b] + rest, sep) == a + sep + b + Concat(Prefixed(sep, rest))
  {
    assert [a, b] + rest == [a] + ([b] + rest);
    JoinIsPrefixedConcat(a, [b] + rest, sep);
    var ps := Prefixed(sep, [b] + rest);
    assert ps[0] == sep + b && ps[1..] == Prefixed(sep, rest);
    assert Concat(ps) == sep + b + Concat(Prefixed(sep, rest));
  }

  // ---------------------------------------------------------------------
  // Dockerfile

  const DockerfileHeader := "# This file will be overwritten on the next ProjectSetup run \n"
  const DebugEgg := "pycharm-debug.egg"
  const AddAddonsExtra := "ADD addons-extra /opt/odoo/addons-extra\n"

  /** A tag is used when it is set and not empty. */
  predicate TagTruthy(tag: Option<string>)
  {
    tag.Some? && tag.value != ""
  }

  function FromLine(image: string, tag: Option<string>): string
  {
    if TagTruthy(tag) then "FROM " + image + ":" + tag.value + "\n\n" else "FROM " + image + "\n\n"
  }

  /**
   * The lines `write_docker_file` writes: the parent image, the apt and
   * pip fragments when there is something to install, the debugger egg
   * when it was found, and the extra addons outside devel mode.
   */
  function DockerfileLines(parentImage: string, parentTag: Option<string>, apt: seq<string>, pip: seq<string>,
                           eggFound: bool, develMode: bool): seq<string>
  {
    [DockerfileHeader, FromLine(parentImage, parentTag), "USER root\n"]
    + (if apt != [] then [DepsText(AptInstall, apt) + "\n"] else [])
    + (if pip != [] then [DepsText(PipInstall, pip) + "\n"] else [])
    + (if eggFound then ["ADD " + DebugEgg + " /opt/odoo/odoo/\n", "RUN set -x; easy_install /opt/odoo/odoo/" + DebugEgg + "\n"] else [])
    + ["USER odoo\n"]
    + (if !develMode then [AddAddonsExtra] else [])
  }

  /**
   * The `FROM` line names the tag exactly when it is truthy; the file ends
   * with the `ADD addons-extra` line exactly outside devel mode, and
   * otherwise with `USER odoo`; the apt, pip and egg lines follow `USER
   * root` in that order, each present exactly when wanted, and `USER odoo`
   * follows them.
   */
  lemma DockerfileRules(parentImage: string, parentTag: Option<string>, apt: seq<string>, pip: seq<string>,
                        eggFound: bool, develMode: bool)
    ensures var lines := DockerfileLines(parentImage, parentTag, apt, pip, eggFound, develMode);
      && |lines| == 4 + (if apt != [] then 1 else 0) + (if pip != [] then 1 else 0) + (if eggFound then 2 else 0) + (if develMode then 0 else 1)
      && lines[0] == DockerfileHeader
      && lines[1] == "FROM " + parentImage + (if TagTruthy(parentTag) then ":" + parentTag.value else "") + "\n\n"
      && lines[2] == "USER root\n"
      && (lines[|lines| - 1] == AddAddonsExtra <==> !develMode)
      && (develMode ==> lines[|lines| - 1] == "USER odoo\n")
      && (apt != [] ==> lines[3] == DepsText(AptInstall, apt) + "\n")
      && (var p := 3 + (if apt != [] then 1 else 0);
          && (pip != [] ==> lines[p] == DepsText(PipInstall, pip) + "\n")
          && (var e := p + (if pip != [] then 1 else 0);
              && (eggFound ==> lines[e] == "ADD " + DebugEgg + " /opt/odoo/odoo/\n"
                               && lines[e + 1] == "RUN set -x; easy_install /opt/odoo/odoo/" + DebugEgg + "\n")
              && lines[e + (if eggFound then 2 else 0)] == "USER odoo\n"))
  {
    assert "FROM " + parentImage + "" + "\n\n" == "FROM " + parentImage + "\n\n";
    assert "USER odoo\n" != AddAddonsExtra by {
      assert "USER odoo\n"[0] != AddAddonsExtra[0];
    }
  }

  // ---------------------------------------------------------------------
  // Fetching repositories

  datatype RepoAction = Clone | Fetch | Keep

  /**
   * The branching in `fetch_repos`: clone a missing repository; fetch an
   * existing one when asked to or when the branch is not tracked yet. The
   * tracking test runs only when the repository exists and no update was
   * asked for.
   */
  function FetchDecision(repoExists: bool, updateRepo: bool, trackingExists: bool): (r: (RepoAction, bool))
    ensures r.0 == Clone <==> !repoExists
    ensures r.0 == Keep <==> repoExists && !updateRepo && trackingExists
    ensures r.1 <==> repoExists && !updateRepo
  {
    if !repoExists then (Clone, false)
    else if updateRepo then (Fetch, false)
    else if !trackingExists then (Fetch, true)
    else (Keep, true)
  }

  /** `os.path.join(baredir, '{}.git'.format(gitproject))`. */
  function RepoDir(baredir: Path, project: string): Path
  {
    baredir + [project + ".git"]
  }

  function ActionFor(fs: Entry, baredir: Path, project: string, updateRepo: bool, tracked: set<string>): (RepoAction, bool)
  {
    FetchDecision(GitHelper.RepoExists(fs, Some(RepoDir(baredir, project))), updateRepo, project in tracked)
  }

  /**
   * `fetch_repos` over the branches' projects: the action taken for each,
   * and the projects whose tracking branch was looked up, in order.
   * `tracked` holds the projects whose remote-tracking branch exists.
   */
  method FetchRepos(fs: Entry, baredir: Path, projects: seq<string>, updateRepo: bool, tracked: set<string>)
    returns (actions: seq<RepoAction>, looked: seq<string>)
    ensures |actions| == |projects|
    ensures forall i | 0 <= i < |projects| :: actions[i] == ActionFor(fs, baredir, projects[i], updateRepo, tracked).0
    ensures looked == LookedUp(fs, baredir, projects, updateRepo, tracked)
  {
    actions, looked := [], [];
    for i := 0 to |projects|
      invariant |actions| == i
      invariant forall j | 0 <= j < i :: actions[j] == ActionFor(fs, baredir, projects[j], updateRepo, tracked).0
      invariant looked == LookedUp(fs, baredir, projects[..i], updateRepo, tracked)
    {
      assert projects[..i + 1][..i] == projects[..i];
      var repoExists := GitHelper.RepoExists(fs, Some(RepoDir(baredir, projects[i])));
      var step := FetchDecision(repoExists, updateRepo, projects[i] in tracked);
      actions := actions + [step.0];
      if step.1 {
        looked := looked + [projects[i]];
      }
    }
    assert projects[..|projects|] == projects;
  }

  /** The projects whose tracking branch is looked up, in order. */
  function LookedUp(fs: Entry, baredir: Path, projects: seq<string>, updateRepo: bool, tracked: set<string>): (r: seq<string>)
    ensures forall p | p in r :: p in projects
  {
    if projects == [] then []
    else
      var last := projects[|projects| - 1];
      var front := LookedUp(fs, baredir, projects[..|projects| - 1], updateRepo, tracked);
      front + if ActionFor(fs, baredir, last, updateRepo, tracked).1 then [last] else []
  }

  /** With an update asked for, no tracking branch is looked up at all. */
  lemma {:induction false} UpdateSkipsTrackingCheck(fs: Entry, baredir: Path, projects: seq<string>, tracked: set<string>)
    ensures LookedUp(fs, baredir, projects, true, tracked) == []
  {
    if projects != [] {
      UpdateSkipsTrackingCheck(fs, baredir, projects[..|projects| - 1], tracked);
    }
  }
}
