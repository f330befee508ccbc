/**
 * The post-restore sanitation steps of `DBTool`: each is one transaction
 * with a fixed body, here given as the statement list it runs, together with
 * what committing it does to the database and whether running it again
 * changes anything.
 */
module Sanitizer {
  import opened Wrappers
  import opened SqlState

  const Admin := "admin"

  /** `set_test_logins`: every password becomes 'admin', and user 1 logs in as 'admin'. */
  const TestLoginsBody := [SetAllPasswords(Admin), SetLoginWhereId(1, Admin)]

  const DatabaseUuidKey := "database.uuid"
  const EntitlementKeys := {"database.enterprise_code", "database.expiration_date", "database.expiration_reason"}

  /** `set_db_uuid`: the installation uuid is replaced (where present) and the entitlement keys deleted. */
  function DbUuidBody(uuid: string): seq<Stmt>
  {
    [UpdateConfigValue(DatabaseUuidKey, uuid), DeleteConfigKeys(EntitlementKeys)]
  }

  /** The report-server settings `set_aeroo_localhost` writes, key by key. */
  const AerooSettings: map<string, string> := map[
    "aeroo.docs_host" := "localhost",
    "aeroo.docs_port" := "8989",
    "aeroo.docs_auth_type" := "simple",
    "aeroo.docs_username" := "anonymous",
    "aeroo.docs_password" := "anonymous"]

  const AerooBody := [
    UpdateConfigValue("aeroo.docs_host", "localhost"),
    UpdateConfigValue("aeroo.docs_port", "8989"),
    UpdateConfigValue("aeroo.docs_auth_type", "simple"),
    UpdateConfigValue("aeroo.docs_username", "anonymous"),
    UpdateConfigValue("aeroo.docs_password", "anonymous")]

  /** The scheduled jobs `set_ir_crons_disabled` switches off. */
  const DisabledCrons := {"Email Queue Manager", "Auto-vacuum internal data", "Garbage Collect Mail Attachments", "Fetchmail Service"}

  const CronsBody := [
    DisableCronsNamed("Email Queue Manager"),
    DisableCronsNamed("Auto-vacuum internal data"),
    DisableCronsNamed("Garbage Collect Mail Attachments"),
    DisableCronsNamed("Fetchmail Service")]

  /** `set_mail_debugmail`: every relay goes to the debug sink, and its name gains a marker. */
  const DebugPrefix := "debugmail-"
  const DebugRelay := Relay("debugmail.io", 9025, "info@apertoso.be", "8e9352a0-1070-11e6-acb8-b387215ae1ba", "none", true)
  const MailBody := [RewriteMailServers(DebugPrefix, DebugRelay)]

  // ---------------------------------------------------------------------
  // set_test_logins

  /**
   * The transaction commits unless `res_users` is missing or another user
   * already logs in as 'admin'; then every user's password is 'admin', user 1
   * (if present) logs in as 'admin', the other logins and tables are kept.
   * On failure nothing changes, passwords included.
   */
  lemma TestLoginsEffect(db: Database)
    ensures var r := Transaction(db, TestLoginsBody);
      && (r.outcome.Pass? <==> db.users.Some? && !(1 in db.users.value && LoginTaken(db.users.value, 1, Admin)))
      && (r.outcome.Fail? ==> r.db == db)
      && (r.outcome.Pass? ==>
            && r.db == db.(users := r.db.users)
            && r.db.users.value.Keys == db.users.value.Keys
            && forall id | id in db.users.value ::
                 r.db.users.value[id] == User(if id == 1 then Admin else db.users.value[id].login, Admin))
  {
    var body := TestLoginsBody;
    assert body[..1] == [body[0]] && body[..0] == [] && body[..2] == body;
    var r := Transaction(db, body);
    if db.users.Some? {
      var u := db.users.value;
      var after := map id | id in u :: u[id].(password := Admin);
      assert RunAll(db, body[..1]) == Success(db.(users := Some(after)));
      assert LoginTaken(after, 1, Admin) <==> LoginTaken(u, 1, Admin) by {
        assert forall o | o in u :: after[o].login == u[o].login;
      }
    }
  }

  /** Running `set_test_logins` a second time changes nothing more. */
  lemma TestLoginsIdempotent(db: Database)
    requires Transaction(db, TestLoginsBody).outcome.Pass?
    ensures var d := Transaction(db, TestLoginsBody).db;
      Transaction(d, TestLoginsBody) == Committed(d, Pass)
  {
    var d := Transaction(db, TestLoginsBody).db;
    TestLoginsEffect(db);
    var u := d.users.value;
    if 1 in u {
      assert !LoginTaken(db.users.value, 1, Admin);
      assert !LoginTaken(u, 1, Admin) by {
        forall o | o in u && o != 1 ensures u[o].login != Admin {
          assert u[o].login == db.users.value[o].login;
        }
      }
    }
    TestLoginsEffect(d);
    var d2 := Transaction(d, TestLoginsBody).db;
    assert forall id | id in u :: d2.users.value[id] == u[id];
    assert d2.users.value == u;
  }

  // ---------------------------------------------------------------------
  // set_db_uuid

  /**
   * Commits exactly when `ir_config_parameter` exists; then the uuid key holds
   * the new uuid if it was present (an UPDATE adds no row), the three
   * entitlement keys are gone, and every other key keeps its value.
   */
  lemma DbUuidEffect(db: Database, uuid: string)
    ensures var r := Transaction(db, DbUuidBody(uuid));
      && (r.outcome.Pass? <==> db.config.Some?)
      && (r.outcome.Fail? ==> r.db == db)
      && (r.outcome.Pass? ==>
            && r.db == db.(config := r.db.config)
            && (forall k :: k in r.db.config.value <==> k in db.config.value && k !in EntitlementKeys)
            && forall k | k in r.db.config.value ::
                 r.db.config.value[k] == if k == DatabaseUuidKey then uuid else db.config.value[k])
  {
    var body := DbUuidBody(uuid);
    assert body[..1] == [body[0]] && body[..0] == [] && body[..2] == body;
  }

  /** With the same uuid, a second run changes nothing more. */
  lemma DbUuidIdempotent(db: Database, uuid: string)
    requires Transaction(db, DbUuidBody(uuid)).outcome.Pass?
    ensures var d := Transaction(db, DbUuidBody(uuid)).db;
      Transaction(d, DbUuidBody(uuid)) == Committed(d, Pass)
  {
    var d := Transaction(db, DbUuidBody(uuid)).db;
    DbUuidEffect(db, uuid);
    DbUuidEffect(d, uuid);
    var d2 := Transaction(d, DbUuidBody(uuid)).db;
    assert d2.config.value == d.config.value;
  }

  // ---------------------------------------------------------------------
  // set_aeroo_localhost

  ghost predicate UpdatesKey(body: seq<Stmt>, k: string)
  {
    exists i | 0 <= i < |body| :: body[i].UpdateConfigValue? && body[i].key == k
  }

  lemma {:induction false} UpdatesEffect(db: Database, body: seq<Stmt>, settings: map<string, string>)
    requires db.config.Some?
    requires forall i | 0 <= i < |body| :: body[i].UpdateConfigValue? && body[i].key in settings && body[i].value == settings[body[i].key]
    ensures RunAll(db, body).Success?
    ensures var d := RunAll(db, body).value;
      && d == db.(config := d.config)
      && d.config.value.Keys == db.config.value.Keys
      && forall k | k in db.config.value ::
           d.config.value[k] == if UpdatesKey(body, k) then settings[k] else db.config.value[k]
  {
    if body != [] {
      var front := body[..|body| - 1];
      UpdatesEffect(db, front, settings);
      var last := body[|body| - 1];
      forall k ensures UpdatesKey(body, k) <==> UpdatesKey(front, k) || last.key == k {
        if UpdatesKey(body, k) {
          var i :| 0 <= i < |body| && body[i].UpdateConfigValue? && body[i].key == k;
          if i < |front| { assert front[i] == body[i]; }
        }
        if UpdatesKey(front, k) {
          var i :| 0 <= i < |front| && front[i].UpdateConfigValue? && front[i].key == k;
          assert body[i] == front[i];
        }
        if last.key == k { assert body[|body| - 1] == last; }
      }
    }
  }

  /**
   * Commits exactly when `ir_config_parameter` exists; then each report-server
   * key that is present holds its development value, no key is added and the
   * rest are kept.
   */
  lemma AerooEffect(db: Database)
    ensures var r := Transaction(db, AerooBody);
      && (r.outcome.Pass? <==> db.config.Some?)
      && (r.outcome.Fail? ==> r.db == db)
      && (r.outcome.Pass? ==>
            && r.db == db.(config := r.db.config)
            && r.db.config.value.Keys == db.config.value.Keys
            && forall k | k in db.config.value ::
                 r.db.config.value[k] == if k in AerooSettings then AerooSettings[k] else db.config.value[k])
  {
    if db.config.Some? {
      UpdatesEffect(db, AerooBody, AerooSettings);
      forall k ensures UpdatesKey(AerooBody, k) <==> k in AerooSettings {
        if k in AerooSettings {
          if k == "aeroo.docs_host" { assert AerooBody[0].key == k; }
          else if k == "aeroo.docs_port" { assert AerooBody[1].key == k; }
          else if k == "aeroo.docs_auth_type" { assert AerooBody[2].key == k; }
          else if k == "aeroo.docs_username" { assert AerooBody[3].key == k; }
          else { assert AerooBody[4].key == k; }
        }
      }
    } else {
      FirstFailureAborts(db, AerooBody);
    }
  }

  lemma AerooIdempotent(db: Database)
    requires Transaction(db, AerooBody).outcome.Pass?
    ensures var d := Transaction(db, AerooBody).db;
      Transaction(d, AerooBody) == Committed(d, Pass)
  {
    var d := Transaction(db, AerooBody).db;
    AerooEffect(db);
    AerooEffect(d);
    var d2 := Transaction(d, AerooBody).db;
    assert d2.config.value == d.config.value;
  }

  // ---------------------------------------------------------------------
  // set_ir_crons_disabled

  ghost predicate DisablesName(body: seq<Stmt>, n: string)
  {
    exists i | 0 <= i < |body| :: body[i].DisableCronsNamed? && body[i].name == n
  }

  lemma {:induction false} DisablesEffect(db: Database, body: seq<Stmt>)
    requires db.crons.Some?
    requires forall i | 0 <= i < |body| :: body[i].DisableCronsNamed?
    ensures RunAll(db, body).Success?
    ensures var d := RunAll(db, body).value;
      && d == db.(crons := d.crons)
      && |d.crons.value| == |db.crons.value|
      && forall j | 0 <= j < |db.crons.value| ::
           var c := db.crons.value[j];
           d.crons.value[j] == c.(active := c.active && !DisablesName(body, c.name))
  {
    if body != [] {
      var front := body[..|body| - 1];
      DisablesEffect(db, front);
      var last := body[|body| - 1];
      forall n ensures DisablesName(body, n) <==> DisablesName(front, n) || last.name == n {
        if DisablesName(body, n) {
          var i :| 0 <= i < |body| && body[i].DisableCronsNamed? && body[i].name == n;
          if i < |front| { assert front[i] == body[i]; }
        }
        if DisablesName(front, n) {
          var i :| 0 <= i < |front| && front[i].DisableCronsNamed? && front[i].name == n;
          assert body[i] == front[i];
        }
        if last.name == n { assert body[|body| - 1] == last; }
      }
    }
  }

  /**
   * Commits exactly when `ir_cron` exists; then the jobs with one of the four
   * names are inactive, every other job keeps its flag, and no job is added,
   * removed or renamed.
   */
  lemma CronsEffect(db: Database)
    ensures var r := Transaction(db, CronsBody);
      && (r.outcome.Pass? <==> db.crons.Some?)
      && (r.outcome.Fail? ==> r.db == db)
      && (r.outcome.Pass? ==>
            && r.db == db.(crons := r.db.crons)
            && |r.db.crons.value| == |db.crons.value|
            && forall j | 0 <= j < |db.crons.value| ::
                 var c := db.crons.value[j];
                 r.db.crons.value[j] == c.(active := c.active && c.name !in DisabledCrons))
  {
    if db.crons.Some? {
      DisablesEffect(db, CronsBody);
      forall n ensures DisablesName(CronsBody, n) <==> n in DisabledCrons {
        if n in DisabledCrons {
          if n == "Email Queue Manager" { assert CronsBody[0].name == n; }
          else if n == "Auto-vacuum internal data" { assert CronsBody[1].name == n; }
          else if n == "Garbage Collect Mail Attachments" { assert CronsBody[2].name == n; }
          else { assert CronsBody[3].name == n; }
        }
      }
    } else {
      FirstFailureAborts(db, CronsBody);
    }
  }

  lemma CronsIdempotent(db: Database)
    requires Transaction(db, CronsBody).outcome.Pass?
    ensures var d := Transaction(db, CronsBody).db;
      Transaction(d, CronsBody) == Committed(d, Pass)
  {
    var d := Transaction(db, CronsBody).db;
    CronsEffect(db);
    CronsEffect(d);
    var d2 := Transaction(d, CronsBody).db;
    assert d2.crons.value == d.crons.value;
  }

  // ---------------------------------------------------------------------
  // set_mail_debugmail

  /**
   * Commits exactly when `ir_mail_server` exists; then every relay row points
   * at the debug sink and its name carries the 'debugmail-' marker in front of
   * the old name.
   */
  lemma MailEffect(db: Database)
    ensures var r := Transaction(db, MailBody);
      && (r.outcome.Pass? <==> db.mailServers.Some?)
      && (r.outcome.Fail? ==> r.db == db)
      && (r.outcome.Pass? ==>
            && r.db == db.(mailServers := r.db.mailServers)
            && |r.db.mailServers.value| == |db.mailServers.value|
            && forall j | 0 <= j < |db.mailServers.value| ::
                 r.db.mailServers.value[j] == MailServer(DebugPrefix + db.mailServers.value[j].name, DebugRelay))
  {
    assert MailBody[..0] == [];
  }

  /** Unlike the other steps, a second run is not harmless: the marker is added again. */
  lemma MailNotIdempotent()
    ensures var db := Database(None, None, None, Some([MailServer("smtp", DebugRelay)]));
      var d := Transaction(db, MailBody);
      && d.outcome.Pass?
      && Transaction(d.db, MailBody).db.mailServers == Some([MailServer(DebugPrefix + DebugPrefix + "smtp", DebugRelay)])
  {
    var db := Database(None, None, None, Some([MailServer("smtp", DebugRelay)]));
    MailEffect(db);
    var d := Transaction(db, MailBody).db;
    assert d.mailServers.value == [MailServer(DebugPrefix + "smtp", DebugRelay)];
    MailEffect(d);
    var d2 := Transaction(d, MailBody).db;
    assert d2.mailServers.value == [MailServer(DebugPrefix + (DebugPrefix + "smtp"), DebugRelay)];
    assert DebugPrefix + (DebugPrefix + "smtp") == DebugPrefix + DebugPrefix + "smtp";
  }
}
