/**
 * The part of a PostgreSQL server the restore tool talks to, as values:
 * a catalogue of databases by name, and in each database the tables the
 * tool reads or rewrites (`res_users`, `ir_config_parameter`, `ir_cron`,
 * `ir_mail_server`), each either absent or present. Every statement the
 * tool issues is modelled by its effect on these tables, and a transaction
 * (`get_cursor`) either commits the effect of its whole body or nothing.
 */
module SqlState {
  import opened Wrappers

  datatype User = User(login: string, password: string)

  datatype Cron = Cron(name: string, active: bool)

  /** The outgoing-mail settings of one `ir_mail_server` row, apart from its name. */
  datatype Relay = Relay(host: string, port: int, user: string, pass: string, encryption: string, debug: bool)

  datatype MailServer = MailServer(name: string, relay: Relay)

  /** A table that is `None` does not exist in the database. */
  datatype Database = Database(
    users: Option<map<int, User>>,         // res_users, by id
    config: Option<map<string, string>>,   // ir_config_parameter, key -> value (key is unique)
    crons: Option<seq<Cron>>,              // ir_cron
    mailServers: Option<seq<MailServer>>)  // ir_mail_server

  /** What `CREATE DATABASE` produces: none of the Odoo tables exist yet. */
  const EmptyDatabase := Database(None, None, None, None)

  type Catalogue = map<string, Database>

  datatype SqlError =
    | SyntaxError
    | DuplicateDatabase(name: string)
    | UndefinedTable(table: string)
    | UniqueViolation(constraint: string)

  /** The data-changing statements the tool issues. */
  datatype Stmt =
    | SetAllPasswords(password: string)             // UPDATE res_users SET password=...
    | SetLoginWhereId(id: int, login: string)       // UPDATE res_users SET login=... WHERE id=...
    | UpdateConfigValue(key: string, value: string) // UPDATE ir_config_parameter SET value=... WHERE key=...
    | DeleteConfigKeys(keys: set<string>)           // DELETE FROM ir_config_parameter WHERE key IN ...
    | InsertConfig(key: string, value: string)      // INSERT INTO ir_config_parameter ...
    | DisableCronsNamed(name: string)               // UPDATE ir_cron SET active=FALSE WHERE name=...
    | RewriteMailServers(namePrefix: string, relay: Relay) // UPDATE ir_mail_server SET name=CONCAT(...), ...

  /** Login names are unique in `res_users` (the `login_key` constraint). */
  predicate LoginTaken(users: map<int, User>, id: int, login: string)
  {
    exists other | other in users :: other != id && users[other].login == login
  }

  /** The effect of one statement on a database. */
  function Exec(db: Database, s: Stmt): (r: Result<Database, SqlError>)
    ensures r.Success? && (s.SetAllPasswords? || s.SetLoginWhereId?) ==>
      r.value == db.(users := r.value.users)
    ensures r.Success? && (s.UpdateConfigValue? || s.DeleteConfigKeys? || s.InsertConfig?) ==>
      r.value == db.(config := r.value.config)
    ensures r.Success? && s.DisableCronsNamed? ==> r.value == db.(crons := r.value.crons)
    ensures r.Success? && s.RewriteMailServers? ==> r.value == db.(mailServers := r.value.mailServers)
  {
    match s
    case SetAllPasswords(pw) =>
      if db.users.None? then Failure(UndefinedTable("res_users"))
      else
        var u := db.users.value;
        Success(db.(users := Some(map id | id in u :: u[id].(password := pw))))
    case SetLoginWhereId(id, login) =>
      if db.users.None? then Failure(UndefinedTable("res_users"))
      else
        var u := db.users.value;
        if id !in u then Success(db)
        else if LoginTaken(u, id, login) then Failure(UniqueViolation("res_users_login_key"))
        else Success(db.(users := Some(u[id := u[id].(login := login)])))
    case UpdateConfigValue(key, value) =>
      if db.config.None? then Failure(UndefinedTable("ir_config_parameter"))
      else
        var c := db.config.value;
        Success(db.(config := Some(if key in c then c[key := value] else c)))
    case DeleteConfigKeys(keys) =>
      if db.config.None? then Failure(UndefinedTable("ir_config_parameter"))
      else Success(db.(config := Some(db.config.value - keys)))
    case InsertConfig(key, value) =>
      if db.config.None? then Failure(UndefinedTable("ir_config_parameter"))
      else if key in db.config.value then Failure(UniqueViolation("ir_config_parameter_key_uniq"))
      else Success(db.(config := Some(db.config.value[key := value])))
    case DisableCronsNamed(name) =>
      if db.crons.None? then Failure(UndefinedTable("ir_cron"))
      else Success(db.(crons := Some(DisableNamed(db.crons.value, name))))
    case RewriteMailServers(prefix, relay) =>
      if db.mailServers.None? then Failure(UndefinedTable("ir_mail_server"))
      else Success(db.(mailServers := Some(Redirect(db.mailServers.value, prefix, relay))))
  }

  function DisableNamed(cs: seq<Cron>, name: string): (r: seq<Cron>)
    ensures |r| == |cs|
    ensures forall i | 0 <= i < |cs| ::
      r[i] == if cs[i].name == name then cs[i].(active := false) else cs[i]
  {
    if cs == [] then []
    else [if cs[0].name == name then cs[0].(active := false) else cs[0]] + DisableNamed(cs[1..], name)
  }

  function Redirect(ms: seq<MailServer>, prefix: string, relay: Relay): (r: seq<MailServer>)
    ensures |r| == |ms|
    ensures forall i | 0 <= i < |ms| :: r[i] == MailServer(prefix + ms[i].name, relay)
  {
    if ms == [] then [] else [MailServer(prefix + ms[0].name, relay)] + Redirect(ms[1..], prefix, relay)
  }

  /** An insert of a key the table does not hold adds exactly that row. */
  lemma InsertFresh(db: Database, key: string, value: string)
    requires db.config.Some? && key !in db.config.value
    ensures Exec(db, InsertConfig(key, value)) == Success(db.(config := Some(db.config.value[key := value])))
  {
  }

  /** Running a sequence of statements in order, stopping at the first error. */
  function RunAll(db: Database, body: seq<Stmt>): Result<Database, SqlError>
  {
    if body == [] then Success(db)
    else
      match RunAll(db, body[..|body| - 1])
      case Failure(e) => Failure(e)
      case Success(d) => Exec(d, body[|body| - 1])
  }

  /** Statement `i` of `body` is the first to fail, raising `e`. */
  ghost predicate FailsAt(db: Database, body: seq<Stmt>, i: int, e: SqlError)
  {
    0 <= i < |body| && RunAll(db, body[..i]).Success?
    && Exec(RunAll(db, body[..i]).value, body[i]) == Failure(e)
  }

  lemma {:induction false} RunAllOutcome(db: Database, body: seq<Stmt>)
    ensures RunAll(db, body).Success? ==> forall i | 0 <= i <= |body| :: RunAll(db, body[..i]).Success?
    ensures RunAll(db, body).Failure? ==>
      exists i | 0 <= i < |body| :: FailsAt(db, body, i, RunAll(db, body).error)
  {
    if body != [] {
      var n := |body|;
      var front := body[..n - 1];
      RunAllOutcome(db, front);
      assert forall i | 0 <= i <= n - 1 :: front[..i] == body[..i];
      assert body[..n] == body;
      if RunAll(db, front).Failure? {
        var i :| 0 <= i < n - 1 && FailsAt(db, front, i, RunAll(db, front).error);
        assert front[i] == body[i];
        assert FailsAt(db, body, i, RunAll(db, body).error);
      } else if RunAll(db, body).Failure? {
        assert FailsAt(db, body, n - 1, RunAll(db, body).error);
      }
    }
  }

  /** Running `a` then `b` is running `a + b`. */
  lemma {:induction false} RunAllAppend(db: Database, a: seq<Stmt>, b: seq<Stmt>)
    ensures RunAll(db, a + b) ==
      match RunAll(db, a)
      case Failure(e) => Failure(e)
      case Success(d) => RunAll(d, b)
  {
    if b == [] {
      assert a + b == a;
    } else {
      assert (a + b)[..|a + b| - 1] == a + b[..|b| - 1];
      assert (a + b)[|a + b| - 1] == b[|b| - 1];
      RunAllAppend(db, a, b[..|b| - 1]);
    }
  }

  /** A body whose first statement fails fails as a whole. */
  lemma FirstFailureAborts(db: Database, body: seq<Stmt>)
    requires body != [] && Exec(db, body[0]).Failure?
    ensures RunAll(db, body).Failure?
  {
    assert body == [body[0]] + body[1..];
    assert [body[0]][..0] == [];
    RunAllAppend(db, [body[0]], body[1..]);
  }

  datatype Committed = Committed(db: Database, outcome: Outcome<SqlError>)

  /**
   * `get_cursor`: run the body; commit when every statement succeeded, and
   * otherwise roll back and re-raise the error of the first statement that
   * failed, so that no effect of the earlier statements survives.
   */
  function Transaction(db: Database, body: seq<Stmt>): (r: Committed)
    ensures r.outcome.Pass? ==>
      && RunAll(db, body) == Success(r.db)
      && forall i | 0 <= i <= |body| :: RunAll(db, body[..i]).Success?
    ensures r.outcome.Fail? ==>
      && r.db == db
      && exists i | 0 <= i < |body| :: FailsAt(db, body, i, r.outcome.error)
  {
    RunAllOutcome(db, body);
    match RunAll(db, body)
    case Success(d) => Committed(d, Pass)
    case Failure(e) => Committed(db, Fail(e))
  }

  // ---------------------------------------------------------------------
  // Queries

  /** `SELECT 1 FROM res_users WHERE id=1` finds a row. */
  function HasUserOne(db: Database): (r: Result<bool, SqlError>)
    ensures r.Failure? <==> db.users.None?
    ensures r.Success? ==> (r.value <==> 1 in db.users.value)
  {
    if db.users.None? then Failure(UndefinedTable("res_users")) else Success(1 in db.users.value)
  }

  /** `SELECT key, value FROM ir_config_parameter WHERE key LIKE pattern`, as a map of the rows. */
  function SelectConfigLike(db: Database, pattern: string): (r: Result<map<string, string>, SqlError>)
    ensures r.Failure? <==> db.config.None?
    ensures r.Success? ==> forall k :: k in r.value <==> k in db.config.value && LikeMatch(k, pattern)
    ensures r.Success? ==> forall k | k in r.value :: r.value[k] == db.config.value[k]
  {
    if db.config.None? then Failure(UndefinedTable("ir_config_parameter"))
    else
      var c := db.config.value;
      Success(map k | k in c && LikeMatch(k, pattern) :: c[k])
  }

  // ---------------------------------------------------------------------
  // LIKE patterns: '_' matches one character, '%' any run of characters,
  // and '\' makes the next character literal.

  predicate LikeMatch(s: string, p: string)
    decreases |s| + |p|
  {
    if p == [] then s == []
    else if p[0] == '%' then LikeMatch(s, p[1..]) || (s != [] && LikeMatch(s[1..], p))
    else if p[0] == '_' then s != [] && LikeMatch(s[1..], p[1..])
    else if p[0] == '\\' then |p| >= 2 && s != [] && s[0] == p[1] && LikeMatch(s[1..], p[2..])
    else s != [] && s[0] == p[0] && LikeMatch(s[1..], p[1..])
  }

  predicate IsLikeSpecial(c: char)
  {
    c == '%' || c == '_' || c == '\\'
  }

  /** The LIKE pattern that matches exactly the text `t`. */
  function EscapeLike(t: string): (p: string)
    ensures |p| >= |t|
  {
    if t == [] then []
    else (if IsLikeSpecial(t[0]) then ['\\', t[0]] else [t[0]]) + EscapeLike(t[1..])
  }

  lemma {:induction false} PercentMatchesAll(s: string)
    ensures LikeMatch(s, "%")
    decreases |s|
  {
    if s != [] {
      PercentMatchesAll(s[1..]);
    }
  }

  /** `LIKE escaped(t) || '%'` selects exactly the strings that start with `t`. */
  lemma {:induction false} EscapedPrefixMatch(t: string, s: string)
    ensures LikeMatch(s, EscapeLike(t) + "%") <==> t <= s
    decreases |t|
  {
    var p := EscapeLike(t) + "%";
    if t == [] {
      assert p == "%";
      PercentMatchesAll(s);
    } else {
      assert EscapeLike(t) == (if IsLikeSpecial(t[0]) then ['\\', t[0]] else [t[0]]) + EscapeLike(t[1..]);
      if s != [] {
        EscapedPrefixMatch(t[1..], s[1..]);
      }
      if IsLikeSpecial(t[0]) {
        assert p[0] == '\\' && p[1] == t[0] && p[2..] == EscapeLike(t[1..]) + "%";
      } else {
        assert p[0] == t[0] && p[1..] == EscapeLike(t[1..]) + "%";
      }
      assert t <= s <==> s != [] && s[0] == t[0] && t[1..] <= s[1..];
    }
  }

  /**
   * A pattern of literal characters and '_' wildcards followed by '%'
   * matches every string that agrees with it at the literal positions.
   */
  lemma {:induction false} UnderscoresMatchAnyChar(p: string, s: string)
    requires forall i | 0 <= i < |p| :: p[i] != '%' && p[i] != '\\'
    requires |p| <= |s| && forall i | 0 <= i < |p| :: p[i] == '_' || p[i] == s[i]
    ensures LikeMatch(s, p + "%")
    decreases |p|
  {
    if p == [] {
      assert p + "%" == "%";
      PercentMatchesAll(s);
    } else {
      UnderscoresMatchAnyChar(p[1..], s[1..]);
      assert (p + "%")[1..] == p[1..] + "%";
    }
  }

  // ---------------------------------------------------------------------
  // Database names in CREATE / DROP statements

  predicate IsIdentStart(c: char)
  {
    'a' <= c <= 'z' || 'A' <= c <= 'Z' || c == '_' || c as int >= 128
  }

  predicate IsIdentChar(c: char)
  {
    IsIdentStart(c) || '0' <= c <= '9' || c == '$'
  }

  function LowerAscii(c: char): (d: char)
    ensures 'A' <= c <= 'Z' ==> 'a' <= d <= 'z'
    ensures !('A' <= c <= 'Z') ==> d == c
  {
    if 'A' <= c <= 'Z' then (c as int - 'A' as int + 'a' as int) as char else c
  }

  function LowerAsciiString(s: string): (r: string)
    ensures |r| == |s| && forall i | 0 <= i < |s| :: r[i] == LowerAscii(s[i])
  {
    if s == [] then [] else [LowerAscii(s[0])] + LowerAsciiString(s[1..])
  }

  /**
   * The database name PostgreSQL reads from an unquoted identifier: upper-case
   * ASCII letters are folded to lower case; text that is not an identifier is
   * a syntax error (`None`).
   */
  function UnquotedIdentifier(text: string): (r: Option<string>)
    ensures r.Some? <==> text != [] && IsIdentStart(text[0]) && forall i | 0 <= i < |text| :: IsIdentChar(text[i])
    ensures r.Some? ==> r.value == LowerAsciiString(text)
  {
    if text != [] && IsIdentStart(text[0]) && forall i | 0 <= i < |text| :: IsIdentChar(text[i])
    then Some(LowerAsciiString(text)) else None
  }

  predicate HasQuote(s: string)
  {
    exists i | 0 <= i < |s| :: s[i] == '"'
  }

  /**
   * The database name PostgreSQL reads from `"text"`: the text itself, kept
   * exactly; an empty name or an embedded double quote makes the statement
   * unparsable.
   */
  function QuotedIdentifier(text: string): (r: Option<string>)
    ensures r.Some? <==> text != [] && !HasQuote(text)
    ensures r.Some? ==> r.value == text
  {
    if text != [] && !HasQuote(text) then Some(text) else None
  }

  /**
   * `CREATE DATABASE` for a parsed name: it succeeds exactly for a name the
   * server does not have, adding it as an empty database and keeping every
   * other database.
   */
  function CreateDatabase(cat: Catalogue, name: Option<string>): (r: Result<Catalogue, SqlError>)
    ensures r.Success? <==> name.Some? && name.value !in cat
    ensures r.Failure? ==> r.error == if name.None? then SyntaxError else DuplicateDatabase(name.value)
    ensures r.Success? ==> name.value in r.value && r.value[name.value] == EmptyDatabase
    ensures r.Success? ==> forall n | n != name.value :: (n in r.value <==> n in cat) && (n in cat ==> r.value[n] == cat[n])
  {
    match name
    case None => Failure(SyntaxError)
    case Some(n) => if n in cat then Failure(DuplicateDatabase(n)) else Success(cat[n := EmptyDatabase])
  }

  /**
   * `DROP DATABASE IF EXISTS` for a parsed name: the name is gone afterwards,
   * every other database is kept, and an absent name is not an error.
   */
  function DropDatabaseIfExists(cat: Catalogue, name: Option<string>): (r: Result<Catalogue, SqlError>)
    ensures name.None? <==> r.Failure?
    ensures r.Success? ==> name.value !in r.value
    ensures r.Success? ==> forall n | n != name.value :: (n in r.value <==> n in cat) && (n in cat ==> r.value[n] == cat[n])
    ensures r.Success? && name.value !in cat ==> r.value == cat
  {
    match name
    case None => Failure(SyntaxError)
    case Some(n) => Success(cat - {n})
  }
}
