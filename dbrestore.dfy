/**
 * `DBTool`: the restore tool's handle on one target database. Its state is
 * the server's catalogue of databases, the filesystem, the connection to the
 * target and the cache of actual module timestamps; the methods are the
 * lifecycle checks and steps, the sanitation transactions, the timestamp
 * bookkeeping and the choice of modules to update.
 */
module DbRestore {
  import opened Wrappers
  import opened Strings
  import opened SqlState
  import opened FileSystem
  import opened ModuleWalk
  import opened TimestampStore
  import opened Sanitizer
  import Attachments

  /** `self.conn`: never bound (`False`), bound to the target, or bound but killed by a drop. */
  datatype Connection = NotConnected | Connected | Terminated

  datatype ToolError =
    | Sql(sqlError: SqlError)
    | ConnectFailed(name: string)   // psycopg2.connect to a database the server does not have
    | NoConnection                  // a cursor on an unbound or terminated connection
    | Walk(walkError: WalkError)
    | Attach(attachError: Attachments.AttachError)

  function SqlOutcome(o: Outcome<SqlError>): (r: Outcome<ToolError>)
    ensures r.Pass? <==> o.Pass?
  {
    match o
    case Pass => Pass
    case Fail(e) => Fail(Sql(e))
  }

  // ---------------------------------------------------------------------
  // Creating the target database

  datatype CreateResult = CreateResult(catalogue: Catalogue, connected: bool, outcome: Outcome<ToolError>)

  /**
   * The part of `createdb_if_not_exists` after the target was found absent:
   * `CREATE DATABASE` with the identifier as the statement spells it, then a
   * connection to the target by its exact name.
   */
  function CreateThenConnect(cat: Catalogue, ident: Option<string>, target: string): CreateResult
  {
    match CreateDatabase(cat, ident)
    case Failure(e) => CreateResult(cat, false, Fail(Sql(e)))
    case Success(cat') =>
      if target in cat' then CreateResult(cat', true, Pass)
      else CreateResult(cat', false, Fail(ConnectFailed(target)))
  }

  /** The statement as the source writes it: `'CREATE DATABASE ' + target_db`, an unquoted identifier. */
  function CreateAsWritten(cat: Catalogue, target: string): CreateResult
  {
    CreateThenConnect(cat, UnquotedIdentifier(target), target)
  }

  /** The statement quoted like the source's DROP: `CREATE DATABASE "<target_db>"`. */
  function CreateQuoted(cat: Catalogue, target: string): CreateResult
  {
    CreateThenConnect(cat, QuotedIdentifier(target), target)
  }

  /**
   * Unquoted, PostgreSQL folds the name to lower case: for the target
   * `Test` the server creates `test`, the connection to `Test` then fails,
   * a second attempt fails on the duplicate, and the quoted DROP does not
   * remove what was created.
   */
  lemma {:induction false} AsWrittenCreatesFoldedName(cat: Catalogue, target: string)
    requires target == "Test" && "Test" !in cat && "test" !in cat
    ensures var r := CreateAsWritten(cat, target);
      && r.outcome == Fail(ConnectFailed("Test"))
      && r.catalogue == cat["test" := EmptyDatabase]
      && CreateAsWritten(r.catalogue, target).outcome == Fail(Sql(DuplicateDatabase("test")))
      && DropDatabaseIfExists(r.catalogue, QuotedIdentifier(target)) == Success(r.catalogue)
  {
    assert IsIdentStart(target[0]);
    assert forall i | 0 <= i < |target| :: IsIdentChar(target[i]);
    var folded := LowerAsciiString(target);
    assert folded == "test" by {
      assert |folded| == 4;
      assert folded[0] == LowerAscii('T');
    }
    assert !HasQuote(target);
  }

  /**
   * Quoted, the name is kept exactly: a target the server does not have is
   * created as an empty database and connected to, unless its name cannot
   * be quoted (empty, or holding a double quote).
   */
  lemma CreateQuotedConnects(cat: Catalogue, target: string)
    requires target !in cat
    ensures var r := CreateQuoted(cat, target);
      && (r.outcome.Pass? <==> target != "" && !HasQuote(target))
      && (r.outcome.Pass? ==> r.connected && r.catalogue == cat[target := EmptyDatabase])
      && (r.outcome.Fail? ==> !r.connected && r.catalogue == cat)
  {
  }

  // ---------------------------------------------------------------------
  // Module timestamps on disk

  /** `check_module_timestamps(os.path.join(addons_dir, m))`. */
  function ModuleMtime(fs: Entry, dir: Path, m: string): Result<int, WalkError>
  {
    match Lookup(fs, dir + [m])
    case None => Failure(NoSuchEntry(m))
    case Some(e) => TreeMtime(e, 0)
  }

  /** The loop of `get_module_timestamps` over `modules`, stopping at the first module that fails. */
  function ModuleTimestamps(fs: Entry, dir: Path, modules: seq<string>): Result<map<string, int>, WalkError>
  {
    if modules == [] then Success(map[])
    else
      match ModuleTimestamps(fs, dir, modules[..|modules| - 1])
      case Failure(e) => Failure(e)
      case Success(ts) =>
        var m := modules[|modules| - 1];
        match ModuleMtime(fs, dir, m)
        case Failure(e) => Failure(e)
        case Success(t) => Success(ts[m := t])
  }

  /**
   * The walk of the listed modules fails exactly when one of them fails;
   * otherwise it maps exactly the listed modules, each to its own walk's
   * result.
   */
  lemma {:induction false} ModuleTimestampsContents(fs: Entry, dir: Path, modules: seq<string>)
    ensures ModuleTimestamps(fs, dir, modules).Failure? <==>
      exists i | 0 <= i < |modules| :: ModuleMtime(fs, dir, modules[i]).Failure?
    ensures ModuleTimestamps(fs, dir, modules).Success? ==>
      var ts := ModuleTimestamps(fs, dir, modules).value;
      && (forall m :: m in ts <==> m in modules)
      && (forall m | m in ts :: ModuleMtime(fs, dir, m) == Success(ts[m]))
  {
    if modules != [] {
      var front := modules[..|modules| - 1];
      var last := modules[|modules| - 1];
      ModuleTimestampsContents(fs, dir, front);
      assert modules == front + [last];
      assert forall i | 0 <= i < |front| :: front[i] == modules[i];
      if ModuleMtime(fs, dir, last).Failure? {
        assert ModuleMtime(fs, dir, modules[|modules| - 1]).Failure?;
      }
    }
  }

  /** `os.listdir(addons_dir)`. */
  function ListDir(fs: Entry, dir: Path): Result<seq<string>, WalkError>
  {
    match Lookup(fs, dir)
    case None => Failure(NoSuchEntry(Join(dir, "/")))
    case Some(Dir(cs)) => Success(Names(cs))
    case Some(_) => Failure(ListedNonDirectory)
  }

  function WalkResult<T>(r: Result<T, WalkError>): (w: Result<T, ToolError>)
    ensures w.Success? <==> r.Success?
    ensures w.Success? ==> w.value == r.value
  {
    match r
    case Success(v) => Success(v)
    case Failure(e) => Failure(Walk(e))
  }

  /** The names `get_module_timestamps` walks: the given modules, or the addons listing when none are given. */
  function ModuleNames(fs: Entry, dir: Path, modules: seq<string>): Result<seq<string>, WalkError>
  {
    if modules == [] then ListDir(fs, dir) else Success(modules)
  }

  /** What `get_module_timestamps(modules)` returns, or the error it raises. */
  function WalkModules(fs: Entry, dir: Path, modules: seq<string>): Result<map<string, int>, ToolError>
  {
    match ModuleNames(fs, dir, modules)
    case Failure(e) => Failure(Walk(e))
    case Success(names) => WalkResult(ModuleTimestamps(fs, dir, names))
  }

  /**
   * The cache after `get_module_timestamps(modules)` ran: untouched when the
   * listing failed, and otherwise the walk of a prefix of the names: all of
   * them, or those before a module whose walk fails.
   */
  ghost predicate CacheAfterWalk(fs: Entry, dir: Path, modules: seq<string>, before: map<string, int>, after: map<string, int>)
  {
    var names := ModuleNames(fs, dir, modules);
    && (names.Failure? ==> after == before)
    && (names.Success? ==>
          exists k | 0 <= k <= |names.value| ::
            && ModuleTimestamps(fs, dir, names.value[..k]) == Success(after)
            && (k < |names.value| ==> ModuleMtime(fs, dir, names.value[k]).Failure?))
  }

  /**
   * What `save_module_timestamps_in_db(ts)` does to the catalogue: nothing
   * for an empty map; without a live connection no cursor; otherwise one
   * transaction that commits the save, or fails when the table is missing.
   */
  ghost predicate IsSave(cat: Catalogue, conn: Connection, target: string, ts: map<string, int>, r: Outcome<ToolError>, cat': Catalogue)
  {
    if ts == map[] then r == Pass && cat' == cat
    else if conn != Connected || target !in cat then r == Fail(NoConnection) && cat' == cat
    else
      var db := cat[target];
      if db.config.Some? then r == Pass && cat' == cat[target := db.(config := Some(SaveEffect(db.config.value, ts)))]
      else r.Fail? && cat' == cat
  }

  // ---------------------------------------------------------------------
  // The tool

  class DbTool {
    const targetDb: string
    const addonsDir: Path
    const cwd: Path
    const dataDir: Attachments.DirName
    var catalogue: Catalogue
    var fs: Entry
    var links: Attachments.Links
    var conn: Connection
    var actualModuleTimestamps: map<string, int>

    /** A live connection is to a database the server has. */
    ghost predicate Valid()
      reads this
    {
      conn == Connected ==> targetDb in catalogue
    }

    constructor(targetDb: string, addonsDir: Path, cwd: Path, dataDir: Attachments.DirName, catalogue: Catalogue, fs: Entry, links: Attachments.Links)
      ensures Valid()
      ensures this.targetDb == targetDb && this.addonsDir == addonsDir && this.cwd == cwd && this.dataDir == dataDir
      ensures this.catalogue == catalogue && this.fs == fs && this.links == links
      ensures conn == NotConnected && actualModuleTimestamps == map[]
    {
      this.targetDb := targetDb;
      this.addonsDir := addonsDir;
      this.cwd := cwd;
      this.dataDir := dataDir;
      this.catalogue := catalogue;
      this.fs := fs;
      this.links := links;
      conn := NotConnected;
      actualModuleTimestamps := map[];
    }

    /** `check_target_db_exists`: true exactly when the server has the target; binds the connection then. */
    method CheckTargetDbExists() returns (r: bool)
      requires Valid()
      modifies this
      ensures Valid()
      ensures r <==> targetDb in catalogue
      ensures conn == if r then Connected else old(conn)
      ensures catalogue == old(catalogue) && fs == old(fs) && links == old(links) && actualModuleTimestamps == old(actualModuleTimestamps)
    {
      r := targetDb in catalogue;
      if r {
        conn := Connected;
      }
    }

    /** `check_data_dir_exists`: whether `<data_dir>/filestore/<target_db>` is a directory, links followed. */
    method CheckDataDirExists() returns (r: bool)
      ensures r <==> Attachments.IsDirVia(fs, links, Attachments.RestoreFolder(cwd, dataDir, targetDb))
    {
      var folder := Attachments.RestoreFolder(cwd, dataDir, targetDb);
      match Attachments.Resolve(links, folder)
      case None => r := false;
      case Some(p) =>
        match Lookup(fs, p)
        case Some(Dir(_)) => r := true;
        case _ => r := false;
    }

    /**
     * `check_valid_odoo_db`: true exactly when the target has `res_users` with
     * a user 1; a missing table is caught and reads as false. Without a live
     * connection the cursor cannot be opened.
     */
    method CheckValidOdooDb() returns (r: Result<bool, ToolError>)
      requires Valid()
      ensures r.Failure? <==> conn != Connected
      ensures r.Failure? ==> r.error == NoConnection
      ensures r.Success? ==> (r.value <==> catalogue[targetDb].users.Some? && 1 in catalogue[targetDb].users.value)
    {
      if conn != Connected {
        return Failure(NoConnection);
      }
      match HasUserOne(catalogue[targetDb])
      case Success(found) => r := Success(found);
      case Failure(_) => r := Success(false);
    }

    /**
     * `createdb_if_not_exists`, with the name quoted: nothing is created when
     * the target exists; otherwise it is created and connected to.
     */
    method CreatedbIfNotExists() returns (r: Outcome<ToolError>)
      requires Valid()
      modifies this
      ensures Valid()
      ensures old(targetDb in catalogue) ==> r == Pass && catalogue == old(catalogue) && conn == Connected
      ensures !old(targetDb in catalogue) ==>
        var c := CreateQuoted(old(catalogue), targetDb);
        && catalogue == c.catalogue && r == c.outcome
        && conn == (if c.connected then Connected else old(conn))
      ensures r.Pass? ==> conn == Connected && targetDb in catalogue
      ensures fs == old(fs) && links == old(links) && actualModuleTimestamps == old(actualModuleTimestamps)
    {
      var exists_ := CheckTargetDbExists();
      if exists_ {
        return Pass;
      }
      var c := CreateQuoted(catalogue, targetDb);
      CreateQuotedConnects(catalogue, targetDb);
      catalogue := c.catalogue;
      if c.connected {
        conn := Connected;
      }
      r := c.outcome;
    }

    /**
     * `do_drop_db_if_exists`: the target's sessions are terminated, then
     * `DROP DATABASE IF EXISTS "<target_db>"` removes it when present.
     */
    method DoDropDbIfExists() returns (r: Outcome<ToolError>)
      requires Valid()
      modifies this
      ensures Valid()
      ensures conn == if old(conn) == Connected then Terminated else old(conn)
      ensures r.Pass? <==> QuotedIdentifier(targetDb).Some?
      ensures r.Pass? ==> catalogue == old(catalogue) - {targetDb}
      ensures r.Fail? ==> r == Fail(Sql(SyntaxError)) && catalogue == old(catalogue)
      ensures fs == old(fs) && links == old(links) && actualModuleTimestamps == old(actualModuleTimestamps)
    {
      if conn == Connected {
        conn := Terminated;
      }
      match DropDatabaseIfExists(catalogue, QuotedIdentifier(targetDb))
      case Failure(e) =>
        r := Fail(Sql(e));
      case Success(c) =>
        catalogue := c;
        r := Pass;
    }

    /** `with get_cursor(self.conn) as cr:` around a fixed statement list. */
    method InTransaction(body: seq<Stmt>) returns (r: Outcome<ToolError>)
      requires Valid()
      modifies this
      ensures Valid()
      ensures old(conn) != Connected ==> r == Fail(NoConnection) && catalogue == old(catalogue)
      ensures old(conn) == Connected ==>
        var c := Transaction(old(catalogue)[targetDb], body);
        && catalogue == old(catalogue)[targetDb := c.db]
        && r == SqlOutcome(c.outcome)
      ensures conn == old(conn) && fs == old(fs) && links == old(links) && actualModuleTimestamps == old(actualModuleTimestamps)
    {
      if conn != Connected {
        return Fail(NoConnection);
      }
      var c := Transaction(catalogue[targetDb], body);
      catalogue := catalogue[targetDb := c.db];
      r := SqlOutcome(c.outcome);
    }

    method SetTestLogins() returns (r: Outcome<ToolError>)
      requires Valid()
      modifies this
      ensures Valid()
      ensures old(conn) != Connected ==> r == Fail(NoConnection) && catalogue == old(catalogue)
      ensures old(conn) == Connected ==>
        var c := Transaction(old(catalogue)[targetDb], TestLoginsBody);
        catalogue == old(catalogue)[targetDb := c.db] && r == SqlOutcome(c.outcome)
      ensures conn == old(conn) && fs == old(fs) && links == old(links) && actualModuleTimestamps == old(actualModuleTimestamps)
    {
      r := InTransaction(TestLoginsBody);
    }

    /** `set_db_uuid`, with the freshly generated uuid as a parameter. */
    method SetDbUuid(uuid: string) returns (r: Outcome<ToolError>)
      requires Valid()
      modifies this
      ensures Valid()
      ensures old(conn) != Connected ==> r == Fail(NoConnection) && catalogue == old(catalogue)
      ensures old(conn) == Connected ==>
        var c := Transaction(old(catalogue)[targetDb], DbUuidBody(uuid));
        catalogue == old(catalogue)[targetDb := c.db] && r == SqlOutcome(c.outcome)
      ensures conn == old(conn) && fs == old(fs) && links == old(links) && actualModuleTimestamps == old(actualModuleTimestamps)
    {
      r := InTransaction(DbUuidBody(uuid));
    }

    method SetAerooLocalhost() returns (r: Outcome<ToolError>)
      requires Valid()
      modifies this
      ensures Valid()
      ensures old(conn) != Connected ==> r == Fail(NoConnection) && catalogue == old(catalogue)
      ensures old(conn) == Connected ==>
        var c := Transaction(old(catalogue)[targetDb], AerooBody);
        catalogue == old(catalogue)[targetDb := c.db] && r == SqlOutcome(c.outcome)
      ensures conn == old(conn) && fs == old(fs) && links == old(links) && actualModuleTimestamps == old(actualModuleTimestamps)
    {
      r := InTransaction(AerooBody);
    }

    method SetIrCronsDisabled() returns (r: Outcome<ToolError>)
      requires Valid()
      modifies this
      ensures Valid()
      ensures old(conn) != Connected ==> r == Fail(NoConnection) && catalogue == old(catalogue)
      ensures old(conn) == Connected ==>
        var c := Transaction(old(catalogue)[targetDb], CronsBody);
        catalogue == old(catalogue)[targetDb := c.db] && r == SqlOutcome(c.outcome)
      ensures conn == old(conn) && fs == old(fs) && links == old(links) && actualModuleTimestamps == old(actualModuleTimestamps)
    {
      r := InTransaction(CronsBody);
    }

    method SetMailDebugmail() returns (r: Outcome<ToolError>)
      requires Valid()
      modifies this
      ensures Valid()
      ensures old(conn) != Connected ==> r == Fail(NoConnection) && catalogue == old(catalogue)
      ensures old(conn) == Connected ==>
        var c := Transaction(old(catalogue)[targetDb], MailBody);
        catalogue == old(catalogue)[targetDb := c.db] && r == SqlOutcome(c.outcome)
      ensures conn == old(conn) && fs == old(fs) && links == old(links) && actualModuleTimestamps == old(actualModuleTimestamps)
    {
      r := InTransaction(MailBody);
    }

    /**
     * `get_module_timestamps`: the given modules, or when none are given
     * every entry of the addons directory, walked one by one into the cache.
     * The cache is emptied first, so a failing walk leaves it holding the
     * modules before the failing one.
     */
    method GetModuleTimestamps(modules: seq<string>) returns (r: Result<map<string, int>, ToolError>)
      modifies this
      ensures catalogue == old(catalogue) && conn == old(conn) && fs == old(fs) && links == old(links)
      ensures r == WalkModules(fs, addonsDir, modules)
      ensures r.Success? ==> actualModuleTimestamps == r.value
      ensures CacheAfterWalk(fs, addonsDir, modules, old(actualModuleTimestamps), actualModuleTimestamps)
    {
      var names := modules;
      if modules == [] {
        var listed := ListDir(fs, addonsDir);
        if listed.Failure? {
          return Failure(Walk(listed.error));
        }
        names := listed.value;
      }
      actualModuleTimestamps := map[];
      var i := 0;
      while i < |names|
        invariant 0 <= i <= |names|
        invariant ModuleTimestamps(fs, addonsDir, names[..i]) == Success(actualModuleTimestamps)
        modifies this`actualModuleTimestamps
        decreases |names| - i
      {
        var name := names[i];
        var mtime: Result<int, WalkError>;
        match Lookup(fs, addonsDir + [name]) {
          case None =>
            mtime := Failure(NoSuchEntry(name));
          case Some(e) =>
            mtime := CheckModuleTimestamps(e, 0);
        }
        if mtime.Failure? {
          FailureSticks(fs, addonsDir, names, i + 1);
          assert ModuleTimestamps(fs, addonsDir, names[..i]) == Success(actualModuleTimestamps);
          return Failure(Walk(mtime.error));
        }
        assert mtime == ModuleMtime(fs, addonsDir, name);
        TimestampsStep(fs, addonsDir, names, i, actualModuleTimestamps);
        actualModuleTimestamps := actualModuleTimestamps[name := mtime.value];
        i := i + 1;
      }
      assert names[..|names|] == names;
      assert ModuleTimestamps(fs, addonsDir, names[..|names|]) == Success(actualModuleTimestamps);
      r := Success(actualModuleTimestamps);
    }

    /**
     * `read_module_timestamps_from_db`, with the corrected pattern: the
     * prefixed rows of the target's `ir_config_parameter`, read into a map
     * from module name to timestamp.
     */
    method ReadModuleTimestampsFromDb() returns (r: Result<map<string, int>, ToolError>)
      requires Valid()
      ensures r.Failure? <==> conn != Connected || catalogue[targetDb].config.None?
      ensures conn != Connected ==> r == Failure(NoConnection)
      ensures r.Success? ==> IsReadResult(PrefixedRows(catalogue[targetDb].config.value), r.value)
    {
      if conn != Connected {
        return Failure(NoConnection);
      }
      var selected := SelectTimestampRows(catalogue[targetDb]);
      if selected.Failure? {
        return Failure(Sql(selected.error));
      }
      var res := CollectTimestamps(selected.value);
      r := Success(res);
    }

    /**
     * `save_module_timestamps_in_db`: nothing at all for an empty map;
     * otherwise one transaction that deletes the modules' keys and inserts
     * one row per module.
     */
    method SaveModuleTimestampsInDb(ts: map<string, int>) returns (r: Outcome<ToolError>)
      requires Valid()
      modifies this
      ensures Valid()
      ensures IsSave(old(catalogue), old(conn), targetDb, ts, r, catalogue)
      ensures conn == old(conn) && fs == old(fs) && links == old(links) && actualModuleTimestamps == old(actualModuleTimestamps)
    {
      if ts == map[] {
        return Pass;
      }
      if conn != Connected {
        return Fail(NoConnection);
      }
      var body: seq<Stmt>;
      ghost var order: seq<string>;
      body, order := SaveStatements(ts);
      SaveBodyEffect(catalogue[targetDb], order, ts);
      r := InTransaction(body);
    }

    /**
     * `save_actual_module_timestamps_in_db`: fill an empty cache from the
     * addons listing, then save the cache. A failing walk raises before
     * anything is saved.
     */
    method SaveActualModuleTimestampsInDb() returns (r: Outcome<ToolError>)
      requires Valid()
      modifies this
      ensures Valid()
      ensures conn == old(conn) && fs == old(fs) && links == old(links)
      ensures old(actualModuleTimestamps) != map[] ==> actualModuleTimestamps == old(actualModuleTimestamps)
      ensures old(actualModuleTimestamps) == map[] ==> CacheAfterWalk(fs, addonsDir, [], map[], actualModuleTimestamps)
      ensures old(actualModuleTimestamps) == map[] && WalkModules(fs, addonsDir, []).Success? ==>
        actualModuleTimestamps == WalkModules(fs, addonsDir, []).value
      ensures old(actualModuleTimestamps) == map[] && WalkModules(fs, addonsDir, []).Failure? ==>
        r == Fail(WalkModules(fs, addonsDir, []).error) && catalogue == old(catalogue)
      ensures old(actualModuleTimestamps) != map[] || WalkModules(fs, addonsDir, []).Success? ==>
        IsSave(old(catalogue), old(conn), targetDb, actualModuleTimestamps, r, catalogue)
    {
      if actualModuleTimestamps == map[] {
        var got := GetModuleTimestamps([]);
        if got.Failure? {
          return Fail(got.error);
        }
      }
      r := SaveModuleTimestampsInDb(actualModuleTimestamps);
    }

    /**
     * `find_modules_to_update`: with the cache filled (from `modules` when it
     * was empty) and the stored stamps read, the modules whose actual stamp
     * exceeds the stored one, in input order.
     */
    method FindModulesToUpdate(modules: seq<string>) returns (r: Result<seq<string>, ToolError>, ghost stored: map<string, int>)
      requires Valid()
      modifies this
      ensures Valid()
      ensures catalogue == old(catalogue) && conn == old(conn) && fs == old(fs) && links == old(links)
      ensures old(actualModuleTimestamps) != map[] ==> actualModuleTimestamps == old(actualModuleTimestamps)
      ensures old(actualModuleTimestamps) == map[] ==> CacheAfterWalk(fs, addonsDir, modules, map[], actualModuleTimestamps)
      ensures old(actualModuleTimestamps) == map[] && WalkModules(fs, addonsDir, modules).Success? ==>
        actualModuleTimestamps == WalkModules(fs, addonsDir, modules).value
      ensures old(actualModuleTimestamps) == map[] && WalkModules(fs, addonsDir, modules).Failure? ==>
        r == Failure(WalkModules(fs, addonsDir, modules).error)
      ensures old(actualModuleTimestamps) != map[] || WalkModules(fs, addonsDir, modules).Success? ==>
        && (r.Failure? <==> conn != Connected || catalogue[targetDb].config.None?)
        && (conn != Connected ==> r == Failure(NoConnection))
      ensures r.Success? ==>
        && conn == Connected && catalogue[targetDb].config.Some?
        && IsReadResult(PrefixedRows(catalogue[targetDb].config.value), stored)
        && r.value == StaleModules(modules, actualModuleTimestamps, stored)
    {
      stored := map[];
      if actualModuleTimestamps == map[] {
        var got := GetModuleTimestamps(modules);
        if got.Failure? {
          return Failure(got.error), stored;
        }
      }
      var read := ReadModuleTimestampsFromDb();
      if read.Failure? {
        return Failure(read.error), stored;
      }
      var databaseStamps := read.value;
      stored := databaseStamps;
      var actual := actualModuleTimestamps;
      var toUpdate: seq<string> := [];
      var i := 0;
      while i < |modules|
        invariant 0 <= i <= |modules|
        invariant toUpdate == StaleModules(modules[..i], actual, databaseStamps)
        modifies {}
      {
        StaleModulesStep(modules, i, actual, databaseStamps);
        var actualTs := if modules[i] in actual then actual[modules[i]] else 0;
        var databaseTs := if modules[i] in databaseStamps then databaseStamps[modules[i]] else -1;
        if actualTs > databaseTs {
          toUpdate := toUpdate + [modules[i]];
        }
        i := i + 1;
      }
      assert modules[..|modules|] == modules;
      r := Success(toUpdate);
    }

    /**
     * `restore_attachments` with the link's target made absolute, the
     * ownership change of docker mode left out.
     */
    method RestoreAttachments(ms: seq<Attachments.Member>) returns (r: Outcome<ToolError>)
      modifies this
      ensures var a := Attachments.RestoreAttachments(old(fs), old(links), cwd, dataDir, targetDb, ms);
        && fs == a.fs && links == a.links
        && r == (match a.outcome case Pass => Pass case Fail(e) => Fail(Attach(e)))
      ensures catalogue == old(catalogue) && conn == old(conn) && actualModuleTimestamps == old(actualModuleTimestamps)
    {
      var a := Attachments.RestoreAttachments(fs, links, cwd, dataDir, targetDb, ms);
      fs := a.fs;
      links := a.links;
      match a.outcome
      case Pass => r := Pass;
      case Fail(e) => r := Fail(Attach(e));
    }
  }

  // ---------------------------------------------------------------------
  // A module changed since the last restore

  /**
   * An addons directory holding the single module `sale` whose only tracked
   * file is `models/sale.py`, modified at `t`, and a database without a
   * record for `sale`: the walk stamps `sale` with `t` and the module is to
   * be updated.
   */
  lemma {:induction false} UnrecordedModuleIsUpdated(fs: Entry, tree: Entry, t: int, stored: map<string, int>)
    requires t >= 0
    requires tree == Dir([("models", Dir([("sale.py", File(t))]))])
    requires fs == Dir([("sale", tree)])
    requires "sale" !in stored
    ensures ModuleTimestamps(fs, [], ["sale"]) == Success(map["sale" := t])
    ensures StaleModules(["sale"], map["sale" := t], stored) == ["sale"]
  {
    var inner := tree.children[0].1;
    assert EndsWith("sale.py", ".py");
    assert Scan(inner, 1, 0) == Success(t) by {
      assert Contribution(inner.children[0].0, inner.children[0].1) == Success(t);
    }
    assert TreeMtime(tree, 0) == Success(t) by {
      assert Contribution(tree.children[0].0, tree.children[0].1) == Success(t);
      assert Scan(tree, 1, 0) == Success(t);
    }
    LookupOnlyChild("sale", tree, "sale", []);
    assert [] + ["sale"] == ["sale"] + [];
    assert ModuleMtime(fs, [], "sale") == Success(t);
    assert ["sale"][..0] == [];
  }

  /** One more module walked without failure adds its stamp. */
  lemma TimestampsStep(fs: Entry, dir: Path, names: seq<string>, i: nat, ts: map<string, int>)
    requires i < |names| && ModuleTimestamps(fs, dir, names[..i]) == Success(ts)
    requires ModuleMtime(fs, dir, names[i]).Success?
    ensures ModuleTimestamps(fs, dir, names[..i + 1]) == Success(ts[names[i] := ModuleMtime(fs, dir, names[i]).value])
  {
    assert names[..i + 1][..i] == names[..i];
  }

  /** Once some module fails, the walk of every longer list fails too, with that module's error. */
  lemma {:induction false} FailureSticks(fs: Entry, dir: Path, names: seq<string>, n: nat)
    requires 0 < n <= |names|
    requires ModuleTimestamps(fs, dir, names[..n - 1]).Success?
    requires ModuleMtime(fs, dir, names[n - 1]).Failure?
    ensures ModuleTimestamps(fs, dir, names).Failure?
    ensures ModuleTimestamps(fs, dir, names) == Failure(ModuleMtime(fs, dir, names[n - 1]).error)
    ensures ModuleTimestamps(fs, dir, names[..n]) == ModuleTimestamps(fs, dir, names)
    decreases |names| - n
  {
    assert names[..n][..n - 1] == names[..n - 1];
    assert names[..n][n - 1] == names[n - 1];
    assert ModuleTimestamps(fs, dir, names[..n]) == Failure(ModuleMtime(fs, dir, names[n - 1]).error);
    if n < |names| {
      FailureSticksLonger(fs, dir, names, n, |names|);
      assert names[..|names|] == names;
    } else {
      assert names[..n] == names;
    }
  }

  lemma {:induction false} FailureSticksLonger(fs: Entry, dir: Path, names: seq<string>, n: nat, k: nat)
    requires 0 < n <= k <= |names|
    requires ModuleTimestamps(fs, dir, names[..n]).Failure?
    ensures ModuleTimestamps(fs, dir, names[..k]) == ModuleTimestamps(fs, dir, names[..n])
    decreases k
  {
    if k > n {
      FailureSticksLonger(fs, dir, names, n, k - 1);
      assert names[..k][..k - 1] == names[..k - 1];
    }
    if k == |names| {
      assert names[..k] == names;
    }
  }
}
