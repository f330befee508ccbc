/**
 * Module timestamps kept in `ir_config_parameter` under keys
 * `apertoso.module_timestamp_<module>`: which rows a read selects, how a read
 * turns rows into a map from module name to timestamp, what a save writes,
 * and which modules are then stale.
 */
module TimestampStore {
  import opened Wrappers
  import opened Strings
  import opened Seqs
  import opened SqlState

  const Prefix := "apertoso.module_timestamp_"

  /** The configuration key under which a module's timestamp is stored. */
  function Key(m: string): string
  {
    Prefix + m
  }

  lemma KeyInjective(a: string, b: string)
    requires Key(a) == Key(b)
    ensures a == b
  {
    assert Key(a)[|Prefix|..] == a;
    assert Key(b)[|Prefix|..] == b;
  }

  lemma KeysDistinct()
    ensures forall a, b | Key(a) == Key(b) :: a == b
  {
    forall a, b | Key(a) == Key(b) ensures a == b {
      KeyInjective(a, b);
    }
  }

  /** `'{}'.format(timestamp)` and `float(value)`, on integer timestamps. */
  function FormatTimestamp(t: int): string
  {
    IntToString(t)
  }

  function ParseTimestamp(s: string): Option<int>
  {
    ParseInt(s)
  }

  /** `key.replace(MODULE_TS_PREFIX, '')`. */
  function ModuleNameOf(key: string): string
  {
    ReplaceAll(key, Prefix, "")
  }

  /** A module name that does not itself contain the prefix is recovered from its key. */
  lemma ModuleNameOfKey(m: string)
    requires !Contains(m, Prefix)
    ensures ModuleNameOf(Key(m)) == m
  {
    ReplacePrefixAway(Prefix, m);
  }

  // ---------------------------------------------------------------------
  // Selecting the timestamp rows

  /** The pattern as the source builds it: prefix + '%', with its '_' left unescaped. */
  const PatternAsWritten := Prefix + "%"

  /** The rows the source's query selects. */
  function SelectTimestampRowsAsWritten(db: Database): Result<map<string, string>, SqlError>
  {
    SelectConfigLike(db, PatternAsWritten)
  }

  /** `key` agrees with the prefix at every position except where the prefix has '_'. */
  predicate LooksLikePrefixed(key: string)
  {
    |key| >= |Prefix| && forall i | 0 <= i < |Prefix| :: Prefix[i] == '_' || Prefix[i] == key[i]
  }

  /**
   * The '_' characters of the prefix are LIKE wildcards: the source's query
   * selects every key that agrees with the prefix except at those two
   * positions, whether or not it starts with the prefix.
   */
  lemma AsWrittenSelectsLookalikes(db: Database, key: string)
    requires db.config.Some? && key in db.config.value && LooksLikePrefixed(key)
    ensures SelectTimestampRowsAsWritten(db).Success? && key in SelectTimestampRowsAsWritten(db).value
  {
    UnderscoresMatchAnyChar(Prefix, key);
  }

  /** A key another tool might store: it differs from the prefix exactly where the prefix has '_'. */
  const LookalikeKey := "apertoso.module-timestamp-sale"

  lemma LookalikeKeyMatchesPrefix()
    ensures LooksLikePrefixed(LookalikeKey)
  {
  }

  lemma LookalikeKeyLacksPrefix()
    ensures !(Prefix <= LookalikeKey) && !Contains(LookalikeKey, Prefix)
  {
    var key := LookalikeKey;
    assert key[15] != Prefix[15];
    forall i | 0 <= i <= |key| - |Prefix| ensures !OccursAt(key, Prefix, i) {
      if i == 0 { assert key[15] != Prefix[15]; } else { assert key[i] != Prefix[0]; }
    }
  }

  /**
   * The lookalike key is selected, and as it holds no copy of the prefix,
   * the read keeps it as a module named by the whole key.
   */
  lemma AsWrittenReadsForeignKey(value: string, res: map<string, int>)
    requires ParseTimestamp(value).Some?
    requires IsReadResult(SelectTimestampRowsAsWritten(Database(None, Some(map[LookalikeKey := value]), None, None)).value, res)
    ensures !(Prefix <= LookalikeKey)
    ensures LookalikeKey in res && res[LookalikeKey] == ParseTimestamp(value).value
  {
    var key := LookalikeKey;
    var db := Database(None, Some(map[key := value]), None, None);
    LookalikeKeyMatchesPrefix();
    AsWrittenSelectsLookalikes(db, key);
    var rows := SelectTimestampRowsAsWritten(db).value;
    assert rows == map[key := value];
    LookalikeKeyLacksPrefix();
    ReplaceAllWithoutOccurrence(key, Prefix, "");
  }

  /** The rows whose key starts with the prefix. */
  function PrefixedRows(cfg: map<string, string>): (rows: map<string, string>)
    ensures forall k :: k in rows <==> k in cfg && Prefix <= k
    ensures forall k | k in rows :: rows[k] == cfg[k]
  {
    map k | k in cfg && Prefix <= k :: cfg[k]
  }

  /** The corrected query: with the prefix escaped, LIKE selects exactly the prefixed keys. */
  function SelectTimestampRows(db: Database): (r: Result<map<string, string>, SqlError>)
    ensures r.Failure? <==> db.config.None?
    ensures r.Success? ==> r.value == PrefixedRows(db.config.value)
  {
    EscapedSelection(db, Prefix);
    SelectConfigLike(db, EscapeLike(Prefix) + "%")
  }

  lemma EscapedSelection(db: Database, t: string)
    ensures var r := SelectConfigLike(db, EscapeLike(t) + "%");
      r.Success? ==> r.value == map k | k in db.config.value && t <= k :: db.config.value[k]
  {
    forall k {
      EscapedPrefixMatch(t, k);
    }
  }

  // ---------------------------------------------------------------------
  // Reading rows into a timestamp map

  /**
   * `res` is a possible result of reading `rows` in some order: every module
   * in it comes from a row whose value parsed to its timestamp, and every row
   * whose value parses names a module in it. Rows that do not parse are
   * skipped.
   */
  ghost predicate IsReadResult(rows: map<string, string>, res: map<string, int>)
  {
    && (forall m | m in res :: exists k | k in rows :: ModuleNameOf(k) == m && ParseTimestamp(rows[k]) == Some(res[m]))
    && (forall k | k in rows && ParseTimestamp(rows[k]).Some? :: ModuleNameOf(k) in res)
  }

  /**
   * The loop of `read_module_timestamps_from_db` over the fetched rows, in
   * an order the model does not fix (the query has no ORDER BY).
   */
  method CollectTimestamps(rows: map<string, string>) returns (res: map<string, int>)
    ensures IsReadResult(rows, res)
  {
    res := map[];
    var todo := rows.Keys;
    ghost var done: set<string> := {};
    while todo != {}
      invariant todo + done == rows.Keys && todo !! done
      invariant forall m | m in res :: exists k | k in done :: ModuleNameOf(k) == m && ParseTimestamp(rows[k]) == Some(res[m])
      invariant forall k | k in done && ParseTimestamp(rows[k]).Some? :: ModuleNameOf(k) in res
      decreases |todo|
    {
      var key :| key in todo;
      var moduleName := ModuleNameOf(key);
      var timestamp := ParseTimestamp(rows[key]);
      if timestamp.Some? {
        res := res[moduleName := timestamp.value];
      }
      todo := todo - {key};
      done := done + {key};
    }
  }

  /** No stored prefixed key carries a second copy of the prefix in its module part. */
  ghost predicate WellKeyed(cfg: map<string, string>)
  {
    forall k | k in cfg && Prefix <= k :: !Contains(k[|Prefix|..], Prefix)
  }

  /**
   * In a well-keyed table a read is determined: it holds exactly the modules
   * whose key is present with a parsable value, each with that value.
   */
  lemma ReadOfWellKeyed(cfg: map<string, string>, res: map<string, int>)
    requires WellKeyed(cfg) && IsReadResult(PrefixedRows(cfg), res)
    ensures forall m :: m in res <==> !Contains(m, Prefix) && Key(m) in cfg && ParseTimestamp(cfg[Key(m)]).Some?
    ensures forall m | m in res :: res[m] == ParseTimestamp(cfg[Key(m)]).value
  {
    var rows := PrefixedRows(cfg);
    forall k | k in rows ensures k == Key(k[|Prefix|..]) && ModuleNameOf(k) == k[|Prefix|..] && !Contains(k[|Prefix|..], Prefix) {
      assert k == Prefix + k[|Prefix|..];
      ModuleNameOfKey(k[|Prefix|..]);
    }
    forall m | m in res ensures !Contains(m, Prefix) && Key(m) in cfg && res[m] == ParseTimestamp(cfg[Key(m)]).value {
      var k :| k in rows && ModuleNameOf(k) == m && ParseTimestamp(rows[k]) == Some(res[m]);
      assert k == Key(m);
    }
    forall m | !Contains(m, Prefix) && Key(m) in cfg && ParseTimestamp(cfg[Key(m)]).Some? ensures m in res {
      ModuleNameOfKey(m);
      assert Key(m) in rows;
    }
  }

  // ---------------------------------------------------------------------
  // Saving

  function SavedKeys(ts: map<string, int>): set<string>
  {
    set m | m in ts :: Key(m)
  }

  /** Every saved key is a module's key, so stripping the prefix gives back that module. */
  lemma SavedKeysStrip(ts: map<string, int>)
    ensures forall k | k in SavedKeys(ts) :: Prefix <= k && k[|Prefix|..] in ts
  {
    forall k | k in SavedKeys(ts) ensures Prefix <= k && k[|Prefix|..] in ts {
      var m :| m in ts && Key(m) == k;
      assert k[|Prefix|..] == m;
    }
  }

  /** The rows a save inserts: each module's key with its formatted timestamp. */
  function SavedRows(ts: map<string, int>): map<string, string>
  {
    SavedKeysStrip(ts);
    map k | k in SavedKeys(ts) :: FormatTimestamp(ts[k[|Prefix|..]])
  }

  /**
   * The table after `save_module_timestamps_in_db(ts)` commits: the module
   * keys are deleted, then the saved rows inserted.
   */
  function SaveEffect(cfg: map<string, string>, ts: map<string, int>): map<string, string>
  {
    (cfg - SavedKeys(ts)) + SavedRows(ts)
  }

  /** After a save each module's key holds its formatted timestamp and every other key is untouched. */
  lemma SaveEffectContents(cfg: map<string, string>, ts: map<string, int>)
    ensures forall m | m in ts :: Key(m) in SaveEffect(cfg, ts) && SaveEffect(cfg, ts)[Key(m)] == FormatTimestamp(ts[m])
    ensures forall k | k !in SavedKeys(ts) :: (k in SaveEffect(cfg, ts) <==> k in cfg) && (k in cfg ==> SaveEffect(cfg, ts)[k] == cfg[k])
    ensures SaveEffect(cfg, ts).Keys == cfg.Keys + SavedKeys(ts)
  {
    forall m | m in ts ensures Key(m) in SavedKeys(ts) && Key(m)[|Prefix|..] == m {
    }
  }

  /** One INSERT per module, in the order `order` lists them. */
  function InsertsFor(order: seq<string>, ts: map<string, int>): (body: seq<Stmt>)
    requires forall i | 0 <= i < |order| :: order[i] in ts
    ensures |body| == |order|
    ensures forall i | 0 <= i < |order| :: body[i] == InsertConfig(Key(order[i]), FormatTimestamp(ts[order[i]]))
  {
    if order == [] then []
    else InsertsFor(order[..|order| - 1], ts) + [InsertConfig(Key(order[|order| - 1]), FormatTimestamp(ts[order[|order| - 1]]))]
  }

  lemma InsertsForAppend(order: seq<string>, ts: map<string, int>, m: string)
    requires forall i | 0 <= i < |order| :: order[i] in ts
    requires m in ts
    ensures InsertsFor(order + [m], ts) == InsertsFor(order, ts) + [InsertConfig(Key(m), FormatTimestamp(ts[m]))]
  {
    assert (order + [m])[..|order|] == order;
  }

  /** Moving `m` from the pending set to the end of the order keeps the two a partition of `keys`. */
  lemma MoveToOrder<T>(todo: set<T>, order: seq<T>, keys: set<T>, m: T)
    requires todo !! Elements(order) && todo + Elements(order) == keys && m in todo
    ensures todo - {m} !! Elements(order + [m]) && (todo - {m}) + Elements(order + [m]) == keys
    ensures m !in Elements(order) && forall i | 0 <= i < |order| :: order[i] in keys
  {
    ElementsAppend(order, m);
    assert forall i | 0 <= i < |order| :: order[i] in Elements(order);
  }

  lemma SaveOrderStep(ts: map<string, int>, order: seq<string>, todo: set<string>, m: string)
    requires todo !! Elements(order) && todo + Elements(order) == ts.Keys && Distinct(order) && m in todo
    ensures todo - {m} !! Elements(order + [m]) && (todo - {m}) + Elements(order + [m]) == ts.Keys
    ensures Distinct(order + [m])
    ensures forall i | 0 <= i < |order| :: order[i] in ts
    ensures InsertsFor(order + [m], ts) == InsertsFor(order, ts) + [InsertConfig(Key(m), FormatTimestamp(ts[m]))]
  {
    MoveToOrder(todo, order, ts.Keys, m);
    DistinctAppend(order, m);
    InsertsForAppend(order, ts, m);
  }

  /**
   * The statements of one save, built as the source builds them: the delete
   * of every module key, then one insert per module in dictionary order
   * (which the model does not fix).
   */
  method SaveStatements(ts: map<string, int>) returns (body: seq<Stmt>, ghost order: seq<string>)
    ensures Distinct(order) && Elements(order) == ts.Keys
    ensures body == [DeleteConfigKeys(SavedKeys(ts))] + InsertsFor(order, ts)
  {
    var inserts: seq<Stmt> := [];
    order := [];
    var todo := ts.Keys;
    while todo != {}
      invariant todo !! Elements(order) && todo + Elements(order) == ts.Keys
      invariant Distinct(order)
      invariant inserts == InsertsFor(order, ts)
      decreases |todo|
    {
      var m :| m in todo;
      SaveOrderStep(ts, order, todo, m);
      inserts := inserts + [InsertConfig(Key(m), FormatTimestamp(ts[m]))];
      order := order + [m];
      todo := todo - {m};
    }
    body := [DeleteConfigKeys(SavedKeys(ts))] + inserts;
  }

  /** The rows the inserts for `order` add to the table. */
  function InsertedRows(order: seq<string>, ts: map<string, int>): (r: map<string, string>)
    requires forall i | 0 <= i < |order| :: order[i] in ts
    ensures forall m :: Key(m) in r <==> m in order
    ensures forall m | m in order :: r[Key(m)] == FormatTimestamp(ts[m])
  {
    if order == [] then map[]
    else
      var front := order[..|order| - 1];
      var last := order[|order| - 1];
      assert order == front + [last];
      var r := InsertedRows(front, ts)[Key(last) := FormatTimestamp(ts[last])];
      assert forall m | Key(m) == Key(last) :: m == last by {
        forall m | Key(m) == Key(last) ensures m == last { KeyInjective(m, last); }
      }
      r
  }

  lemma UpdateOfUnion(a: map<string, string>, b: map<string, string>, k: string, v: string)
    ensures (a + b)[k := v] == a + b[k := v]
  {
  }

  lemma {:induction false} InsertsEffect(db: Database, order: seq<string>, ts: map<string, int>)
    requires db.config.Some? && Distinct(order)
    requires forall i | 0 <= i < |order| :: order[i] in ts && Key(order[i]) !in db.config.value
    ensures RunAll(db, InsertsFor(order, ts)) == Success(db.(config := Some(db.config.value + InsertedRows(order, ts))))
  {
    if order != [] {
      var front := order[..|order| - 1];
      InsertsEffect(db, front, ts);
      InsertStep(db, order, ts);
    } else {
      assert db.config.value + InsertedRows(order, ts) == db.config.value;
    }
  }

  /** The last insert of a non-empty list, given what the ones before it did. */
  lemma InsertStep(db: Database, order: seq<string>, ts: map<string, int>)
    requires db.config.Some? && Distinct(order) && order != []
    requires forall i | 0 <= i < |order| :: order[i] in ts && Key(order[i]) !in db.config.value
    requires var front := order[..|order| - 1];
      RunAll(db, InsertsFor(front, ts)) == Success(db.(config := Some(db.config.value + InsertedRows(front, ts))))
    ensures RunAll(db, InsertsFor(order, ts)) == Success(db.(config := Some(db.config.value + InsertedRows(order, ts))))
  {
    var front := order[..|order| - 1];
    var last := order[|order| - 1];
    var v := FormatTimestamp(ts[last]);
    var rows := InsertedRows(front, ts);
    InsertsForLast(order, ts);
    InsertedRowsLast(order, ts);
    var d := db.(config := Some(db.config.value + rows));
    InsertFresh(d, Key(last), v);
    UpdateOfUnion(db.config.value, rows, Key(last), v);
  }

  lemma InsertsForLast(order: seq<string>, ts: map<string, int>)
    requires order != [] && forall i | 0 <= i < |order| :: order[i] in ts
    ensures var body := InsertsFor(order, ts);
      && body[..|body| - 1] == InsertsFor(order[..|order| - 1], ts)
      && body[|body| - 1] == InsertConfig(Key(order[|order| - 1]), FormatTimestamp(ts[order[|order| - 1]]))
  {
  }

  /** The last insert adds a row for a key the earlier ones did not. */
  lemma InsertedRowsLast(order: seq<string>, ts: map<string, int>)
    requires order != [] && Distinct(order) && forall i | 0 <= i < |order| :: order[i] in ts
    ensures var front := order[..|order| - 1];
      var last := order[|order| - 1];
      && Key(last) !in InsertedRows(front, ts)
      && InsertedRows(order, ts) == InsertedRows(front, ts)[Key(last) := FormatTimestamp(ts[last])]
  {
    assert order[|order| - 1] !in order[..|order| - 1];
  }

  /** The inserts for `order` add exactly the keys of the modules listed. */
  lemma {:induction false} InsertedRowsKeys(order: seq<string>, ts: map<string, int>)
    requires forall i | 0 <= i < |order| :: order[i] in ts
    ensures InsertedRows(order, ts).Keys == set m | m in order :: Key(m)
  {
    if order != [] {
      var front := order[..|order| - 1];
      var last := order[|order| - 1];
      InsertedRowsKeys(front, ts);
      assert order == front + [last];
      assert (set m | m in order :: Key(m)) == (set m | m in front :: Key(m)) + {Key(last)};
    }
  }

  /** With every module inserted once, the inserted rows are those a save adds. */
  lemma InsertedRowsOfAll(order: seq<string>, ts: map<string, int>)
    requires Elements(order) == ts.Keys
    ensures InsertedRows(order, ts) == SavedRows(ts)
  {
    InsertedKeysOfAll(order, ts);
    InsertedValuesOfAll(order, ts);
  }

  lemma InsertedKeysOfAll(order: seq<string>, ts: map<string, int>)
    requires Elements(order) == ts.Keys
    ensures forall i | 0 <= i < |order| :: order[i] in ts
    ensures InsertedRows(order, ts).Keys == SavedRows(ts).Keys
  {
    forall i | 0 <= i < |order| ensures order[i] in ts { assert order[i] in Elements(order); }
    InsertedRowsKeys(order, ts);
    assert (set m | m in order :: Key(m)) == SavedKeys(ts) by {
      forall m ensures m in order <==> m in ts { assert m in order <==> m in Elements(order); }
    }
  }

  lemma InsertedValuesOfAll(order: seq<string>, ts: map<string, int>)
    requires Elements(order) == ts.Keys
    requires forall i | 0 <= i < |order| :: order[i] in ts
    requires InsertedRows(order, ts).Keys == SavedRows(ts).Keys
    ensures forall k | k in InsertedRows(order, ts) :: InsertedRows(order, ts)[k] == SavedRows(ts)[k]
  {
    var r := InsertedRows(order, ts);
    forall k | k in r ensures r[k] == SavedRows(ts)[k] {
      var m :| m in ts && Key(m) == k;
      assert m in Elements(order);
      assert k[|Prefix|..] == m;
    }
  }

  /**
   * `save_module_timestamps_in_db` for a non-empty map: one transaction that
   * commits with exactly `SaveEffect` when the table exists (no insert can
   * collide, because every module key was deleted first) and otherwise
   * changes nothing.
   */
  lemma SaveBodyEffect(db: Database, order: seq<string>, ts: map<string, int>)
    requires Distinct(order) && Elements(order) == ts.Keys
    ensures var r := Transaction(db, [DeleteConfigKeys(SavedKeys(ts))] + InsertsFor(order, ts));
      && (db.config.Some? ==> r == Committed(db.(config := Some(SaveEffect(db.config.value, ts))), Pass))
      && (db.config.None? ==> r.db == db && r.outcome.Fail?)
  {
    var del := DeleteConfigKeys(SavedKeys(ts));
    var body := [del] + InsertsFor(order, ts);
    if db.config.Some? {
      RunAllAppend(db, [del], InsertsFor(order, ts));
      assert [del][..0] == [];
      var db1 := db.(config := Some(db.config.value - SavedKeys(ts)));
      assert RunAll(db, [del]) == Success(db1);
      forall i | 0 <= i < |order| ensures order[i] in ts && Key(order[i]) !in db1.config.value {
        assert order[i] in Elements(order);
      }
      InsertsEffect(db1, order, ts);
      InsertedRowsOfAll(order, ts);
    } else {
      FirstFailureAborts(db, body);
    }
  }

  /** Saving keeps a well-keyed table well keyed when no module name contains the prefix. */
  lemma SaveKeepsWellKeyed(cfg: map<string, string>, ts: map<string, int>)
    requires WellKeyed(cfg) && forall m | m in ts :: !Contains(m, Prefix)
    ensures WellKeyed(SaveEffect(cfg, ts))
  {
    var r := SaveEffect(cfg, ts);
    forall k | k in r && Prefix <= k ensures !Contains(k[|Prefix|..], Prefix) {
      if k in SavedKeys(ts) {
        var m :| m in ts && Key(m) == k;
        assert k[|Prefix|..] == m;
      }
    }
  }

  /**
   * Round trip: after a save, a read returns every saved module with exactly
   * the saved timestamp.
   */
  lemma SaveThenRead(cfg: map<string, string>, ts: map<string, int>, res: map<string, int>)
    requires WellKeyed(cfg) && forall m | m in ts :: !Contains(m, Prefix)
    requires IsReadResult(PrefixedRows(SaveEffect(cfg, ts)), res)
    ensures forall m | m in ts :: m in res && res[m] == ts[m]
  {
    var after := SaveEffect(cfg, ts);
    SaveKeepsWellKeyed(cfg, ts);
    ReadOfWellKeyed(after, res);
    SaveEffectContents(cfg, ts);
    forall m | m in ts ensures m in res && res[m] == ts[m] {
      ReadBackOne(after, res, m, ts[m]);
    }
  }

  /** A module whose key holds a formatted timestamp reads back as that timestamp. */
  lemma ReadBackOne(cfg: map<string, string>, res: map<string, int>, m: string, t: int)
    requires forall m :: m in res <==> !Contains(m, Prefix) && Key(m) in cfg && ParseTimestamp(cfg[Key(m)]).Some?
    requires forall m | m in res :: res[m] == ParseTimestamp(cfg[Key(m)]).value
    requires !Contains(m, Prefix) && Key(m) in cfg && cfg[Key(m)] == FormatTimestamp(t)
    ensures m in res && res[m] == t
  {
    ParseIntOfIntToString(t);
  }

  // ---------------------------------------------------------------------
  // Stale modules

  /** A module needs an update when its files are newer than the stored stamp. */
  predicate IsStale(m: string, actual: map<string, int>, stored: map<string, int>)
  {
    (if m in actual then actual[m] else 0) > (if m in stored then stored[m] else -1)
  }

  /** The stale modules, in input order, duplicates kept. */
  function StaleModules(modules: seq<string>, actual: map<string, int>, stored: map<string, int>): seq<string>
  {
    if modules == [] then []
    else
      var front := modules[..|modules| - 1];
      var last := modules[|modules| - 1];
      StaleModules(front, actual, stored) + (if IsStale(last, actual, stored) then [last] else [])
  }

  /** The stale modules are the listed ones that are stale, each as often as it is listed. */
  lemma {:induction false} StaleModulesContents(modules: seq<string>, actual: map<string, int>, stored: map<string, int>)
    ensures forall m :: m in StaleModules(modules, actual, stored) <==> m in modules && IsStale(m, actual, stored)
    ensures forall m :: (multiset(StaleModules(modules, actual, stored))[m] ==
      if IsStale(m, actual, stored) then multiset(modules)[m] else 0)
  {
    if modules != [] {
      var front := modules[..|modules| - 1];
      var last := modules[|modules| - 1];
      StaleModulesContents(front, actual, stored);
      assert modules == front + [last];
    }
  }

  lemma StaleModulesStep(modules: seq<string>, i: nat, actual: map<string, int>, stored: map<string, int>)
    requires i < |modules|
    ensures StaleModules(modules[..i + 1], actual, stored) ==
      StaleModules(modules[..i], actual, stored) + (if IsStale(modules[i], actual, stored) then [modules[i]] else [])
  {
    assert modules[..i + 1][..i] == modules[..i];
  }

  /**
   * After the actual stamps are saved, reading them back finds none of those
   * modules stale.
   */
  lemma NothingStaleAfterSave(modules: seq<string>, cfg: map<string, string>, actual: map<string, int>, res: map<string, int>)
    requires WellKeyed(cfg) && forall m | m in actual :: !Contains(m, Prefix)
    requires IsReadResult(PrefixedRows(SaveEffect(cfg, actual)), res)
    requires forall m | m in modules :: m in actual
    ensures StaleModules(modules, actual, res) == []
  {
    SaveThenRead(cfg, actual, res);
    assert forall m | m in modules :: !IsStale(m, actual, res);
    NoneStale(modules, actual, res);
  }

  lemma NoneStale(modules: seq<string>, actual: map<string, int>, stored: map<string, int>)
    requires forall m | m in modules :: !IsStale(m, actual, stored)
    ensures StaleModules(modules, actual, stored) == []
  {
    StaleModulesContents(modules, actual, stored);
    if StaleModules(modules, actual, stored) != [] {
      assert StaleModules(modules, actual, stored)[0] in StaleModules(modules, actual, stored);
    }
  }
}
