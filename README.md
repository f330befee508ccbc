# apertoso tools, modelled in Dafny

The apertoso tools are scripts that prepare Odoo databases and development projects. This project models their core in Dafny and proves properties of that model.

**The restore tool.** `DBTool` restores an Odoo database and then sanitises it. Sanitising sets test logins and a fresh uuid, points report printing at localhost, disables four scheduled jobs and redirects every mail relay to a debug sink. It also keeps a small store of module timestamps in `ir_config_parameter`. From those timestamps it decides which modules have to be updated after a restore.

**Smaller helpers.** Besides `DBTool`, the model covers:
- the dynamic Ansible inventory built from instance records;
- the git helper that names the remotes of a bare repository by their hosting;
- the accessors of the project's instance data;
- the helpers that generate dependency fragments and Dockerfile lines for a project.

**How state is modelled.**
- The PostgreSQL server is a catalogue of databases. In each database, every table the tool touches is a map or a sequence of rows.
- A transaction (`get_cursor`) either commits the effect of its whole statement list or changes nothing.
- The filesystem is a tree. Each entry is a directory, a regular file with its modification time, or an entry of another kind. The attachment steps also keep the symbolic links beside the tree, each link's location mapped to its target, and resolve paths through them one component at a time.

**Files.**
- Modules that work on values: `Wrappers`, `Strings`, `PyValue`, `Seqs`, `FileSystem`, `PosixPath`. The domain modules `SqlState`, `ModuleWalk`, `TimestampStore`, `Sanitizer`, `Attachments`, `LoopbackAlias` and `GitUrlPattern` also work on values.
- `DbRestore` holds the class `DbTool`. It owns the catalogue, the filesystem, the connection and the timestamp cache.
- `AnsibleInventory` and `ProjectSetup` hold the loops of their source as methods.
- `GitHelper` holds the class `GitRepo`, with its two caches and the repository's remote configuration. `Instance` holds the class `InstanceData`.
- Every method is proved against a function or predicate of the same module. The lemmas beside it state what the source promises about that function.

## Model

| member | source | states |
|---|---|---|
| SqlState.Exec | packages/dbrestore.py:222-285 | Each statement the tool issues changes only its own table. Password and login updates touch `res_users`, config updates `ir_config_parameter`, cron updates `ir_cron`, mail updates `ir_mail_server`. |
| SqlState.DisableNamed | packages/dbrestore.py:259-271 | Disabling crons by name keeps the list's length and order. A job becomes inactive exactly when its name matches; every other job keeps its flag. |
| SqlState.Redirect | packages/dbrestore.py:273-285 | Every mail server, and only those, points at the given relay, with the marker in front of its old name. |
| SqlState.InsertFresh | packages/dbrestore.py:356-373 | An insert of a key the table lacks adds exactly that row. |
| SqlState.RunAllOutcome | packages/dbrestore.py:22-32 | A statement list succeeds only if every prefix succeeds. A failing list has a first failing statement whose error is the list's error. |
| SqlState.RunAll | packages/dbrestore.py:22-32 | The statements of one cursor, run in order and stopping at the first error; characterised by `RunAllOutcome` and `FirstFailureAborts`. |
| SqlState.FirstFailureAborts | packages/dbrestore.py:22-32 | A body whose first statement fails fails as a whole. |
| SqlState.Transaction | packages/dbrestore.py:22-32 | `get_cursor` commits the whole body's effect when every statement succeeds. Otherwise it rolls back to the unchanged database and re-raises the first statement's error. |
| SqlState.HasUserOne | packages/dbrestore.py:124-125 | The `res_users` query fails exactly when the table is missing. Otherwise it is true iff user 1 exists. |
| SqlState.SelectConfigLike | packages/dbrestore.py:318-322 | A LIKE query returns exactly the config rows whose key matches the pattern, with their values. It fails exactly when the table is missing. |
| SqlState.EscapeLike | packages/dbrestore.py:319-322 | The escaped pattern is never shorter than the text it matches literally. |
| SqlState.EscapedPrefixMatch | packages/dbrestore.py:319-322 | An escaped text followed by `%` matches a key iff the key starts with that text (both directions). |
| SqlState.UnderscoresMatchAnyChar | packages/dbrestore.py:319-322 | An unescaped `_` in a LIKE prefix matches any character in that position. |
| SqlState.UnquotedIdentifier | packages/dbrestore.py:138 | An unquoted database name parses iff it is an identifier, and is folded to lower case. |
| SqlState.QuotedIdentifier | packages/dbrestore.py:153-155 | A quoted name is kept exactly. It parses iff it is non-empty and holds no double quote. |
| SqlState.CreateDatabase | packages/dbrestore.py:138 | CREATE succeeds iff the name parses and is new. It adds an empty database and keeps every other one. Otherwise it fails with a syntax or duplicate error. |
| SqlState.DropDatabaseIfExists | packages/dbrestore.py:153-155 | DROP IF EXISTS removes the name and keeps every other database. An absent name is no error and changes nothing. |
| DbRestore.SqlOutcome | packages/dbrestore.py:22-32 | A server error becomes the tool's error; success stays success. |
| DbRestore.AsWrittenCreatesFoldedName | packages/dbrestore.py:130-156 | As written, target `Test` creates database `test`. The connection to `Test` then fails, a second attempt fails on the duplicate `test`, and the quoted DROP leaves `test` in place. |
| DbRestore.CreateAsWritten | packages/dbrestore.py:130-143 | The unquoted CREATE then the connect, as written; characterised by `AsWrittenCreatesFoldedName`. |
| DbRestore.CreateQuotedConnects | packages/dbrestore.py:130-143 | Quoted, an absent target is created under its exact name and connected to. The only exception is a name that cannot be quoted. |
| DbRestore.ModuleTimestampsContents | packages/dbrestore.py:286-294 | Walking the listed modules fails iff one of their walks fails. Otherwise it maps exactly the listed modules, each to its own walk's result. |
| DbRestore.ModuleTimestamps | packages/dbrestore.py:290-293 | The walk of the listed modules, in order; characterised by `ModuleTimestampsContents` and `FailureSticks`. |
| DbRestore.ListDir | packages/dbrestore.py:288-289 | `os.listdir(addons_dir)`: the names in listing order, and an error when the path is missing or no directory. |
| DbRestore.WalkResult | packages/dbrestore.py:296-313 | A walk error becomes the tool's error; a walk value is kept. |
| DbRestore.DbTool.constructor | packages/dbrestore.py:70-88 | A new tool is not connected and has an empty timestamp cache. |
| DbRestore.DbTool.CheckTargetDbExists | packages/dbrestore.py:90-104 | True iff the server has the target. The connection is bound only in that case. |
| DbRestore.DbTool.CheckDataDirExists | packages/dbrestore.py:106-114 | True iff `<data_dir>/filestore/<target_db>`, read from the working directory and followed through links, is a directory. |
| DbRestore.DbTool.CheckValidOdooDb | packages/dbrestore.py:116-128 | Without a live connection it fails. Otherwise it is true iff the target has `res_users` with user 1; a missing table reads as false. |
| DbRestore.DbTool.CreatedbIfNotExists | packages/dbrestore.py:130-143 | An existing target gets no CREATE and is connected to. An absent one is created and connected to. Success always ends connected. |
| DbRestore.DbTool.DoDropDbIfExists | packages/dbrestore.py:145-156 | The target's sessions are killed and the target is removed. Every other database is kept. An absent target is no error, so two calls are as one. |
| DbRestore.DbTool.InTransaction | packages/dbrestore.py:22-32 | Without a connection it fails and changes nothing. Otherwise the catalogue holds the transaction's committed database. |
| DbRestore.DbTool.SetTestLogins | packages/dbrestore.py:222-226 | Commits the test-login body on the target, or fails without a connection. |
| DbRestore.DbTool.SetDbUuid | packages/dbrestore.py:228-242 | Commits the uuid body for the given uuid on the target, or fails without a connection. |
| DbRestore.DbTool.SetAerooLocalhost | packages/dbrestore.py:244-257 | Commits the report-server body on the target, or fails without a connection. |
| DbRestore.DbTool.SetIrCronsDisabled | packages/dbrestore.py:259-271 | Commits the cron body on the target, or fails without a connection. |
| DbRestore.DbTool.SetMailDebugmail | packages/dbrestore.py:273-285 | Commits the mail body on the target, or fails without a connection. |
| DbRestore.DbTool.GetModuleTimestamps | packages/dbrestore.py:286-294 | The result is the walk of the given modules, or of the addons listing when none are given. On success the cache is the returned map. A failed listing leaves the cache as it was; a failing module walk leaves the stamps of the modules walked before it. |
| DbRestore.DbTool.ReadModuleTimestampsFromDb | packages/dbrestore.py:316-331 | Fails iff there is no connection or no config table. Otherwise the result is a read of exactly the prefixed rows. |
| DbRestore.DbTool.SaveModuleTimestampsInDb | packages/dbrestore.py:338-373 | An empty map writes nothing. Otherwise one transaction deletes the modules' keys and inserts one formatted row per module, leaving every other key as it was. |
| DbRestore.DbTool.SaveActualModuleTimestampsInDb | packages/dbrestore.py:333-336 | A non-empty cache is kept. An empty one is filled from the walk of the addons listing; if that walk fails, its error is the result and the catalogue is unchanged. Then the cache is saved: nothing for an empty map, a failure without a connection, and otherwise the config table holds the save of the cache, or the save fails on a missing table and nothing changes. |
| DbRestore.DbTool.FindModulesToUpdate | packages/dbrestore.py:375-385 | A non-empty cache is kept. An empty one is recomputed from the walk of the given modules (or of the listing); a failed walk is the result. Otherwise it fails iff there is no connection or no config table. On success the result is the listed modules whose cached stamp (default 0) exceeds the stored one (default -1), in input order. |
| DbRestore.DbTool.RestoreAttachments | packages/dbrestore.py:204-217 | The tree, the links and the outcome are those of the attachment steps with an absolute link target. The database state and the cache are untouched. |
| DbRestore.UnrecordedModuleIsUpdated | packages/dbrestore.py:286-385 | A module tracked file modified at `t` and no stored record: the walk stamps it `t` and it is selected for update. |
| DbRestore.FailureSticks | packages/dbrestore.py:290-293 | Once one module's walk fails, the walk of every longer list fails with that module's error. |
| DbRestore.FailureSticksLonger | packages/dbrestore.py:290-293 | A failing prefix of the module list decides the result of every longer prefix. |
| ModuleWalk.CheckModuleTimestamps | packages/dbrestore.py:296-313 | The loop-and-recursion walk returns exactly the reference `TreeMtime`. |
| ModuleWalk.TreeMtime | packages/dbrestore.py:296-313 | The reference walk; characterised by `TreeMtimeIsMaximum`. |
| ModuleWalk.TreeMtimeIsMaximum | packages/dbrestore.py:296-313 | The walk fails iff the tree holds an entry that is neither directory nor file (both directions). Otherwise it returns the maximum of the initial mtime and the mtimes of all `.py`/`.xml`/`.csv` files, at any depth. |
| ModuleWalk.ScanIsMaximum | packages/dbrestore.py:299-312 | After the first `n` listed entries, `mtime` is the maximum over those entries and their subtrees, or the error of an unknown entry among them. |
| ModuleWalk.ContributionIsMaximum | packages/dbrestore.py:300-311 | A directory contributes its subtree's maximum from 0, a tracked file its mtime, an untracked file 0, and any other entry an error. |
| ModuleWalk.ScanFailureSticks | packages/dbrestore.py:309-311 | An unknown entry aborts the loop: later entries do not change the error. |
| TimestampStore.KeyInjective | packages/dbrestore.py:343-347 | Distinct modules have distinct keys. |
| TimestampStore.Key | packages/dbrestore.py:345 | `MODULE_TS_PREFIX + module_name`; characterised by `KeyInjective` and `SavedKeysStrip`. |
| TimestampStore.KeysDistinct | packages/dbrestore.py:343-347 | The key map built from module names never merges two modules. |
| TimestampStore.ModuleNameOfKey | packages/dbrestore.py:325 | `replace` recovers the module name from its key, when the name holds no copy of the prefix. |
| TimestampStore.ModuleNameOf | packages/dbrestore.py:325 | `key.replace(MODULE_TS_PREFIX, '')`; characterised by `ModuleNameOfKey` and `AsWrittenReadsForeignKey`. |
| TimestampStore.AsWrittenSelectsLookalikes | packages/dbrestore.py:319-322 | As written, the query selects every key that agrees with the prefix outside its `_` positions. |
| TimestampStore.SelectTimestampRowsAsWritten | packages/dbrestore.py:316-322 | The query as written; characterised by `AsWrittenSelectsLookalikes` and `AsWrittenReadsForeignKey`. |
| TimestampStore.LookalikeKeyMatchesPrefix | packages/dbrestore.py:319-322 | `apertoso.module-timestamp-sale` agrees with the prefix outside its `_` positions. |
| TimestampStore.LookalikeKeyLacksPrefix | packages/dbrestore.py:19 | That key neither starts with nor contains the prefix. |
| TimestampStore.AsWrittenReadsForeignKey | packages/dbrestore.py:316-331 | As written, a foreign key is read as a module stamp, named by the whole key. |
| TimestampStore.PrefixedRows | packages/dbrestore.py:319-322 | Exactly the config rows whose key starts with the prefix. |
| TimestampStore.SelectTimestampRows | packages/dbrestore.py:316-322 | The corrected query selects exactly the prefixed rows. It fails iff the table is missing. |
| TimestampStore.EscapedSelection | packages/dbrestore.py:319-322 | A LIKE query on an escaped text plus `%` selects the rows whose key starts with that text. |
| TimestampStore.CollectTimestamps | packages/dbrestore.py:323-330 | The row loop, in any order, yields a read result. Every parsable row gives its module, names are prefix-stripped, and unparsable rows are skipped without aborting. |
| TimestampStore.ReadOfWellKeyed | packages/dbrestore.py:323-330 | In a well-keyed table the read is determined. It holds exactly the modules whose key holds a parsable value, each with that value. |
| TimestampStore.SavedKeysStrip | packages/dbrestore.py:343-347 | Every saved key is the prefix followed by a module of the map. |
| TimestampStore.SaveEffectContents | packages/dbrestore.py:338-373 | After a save each module's key holds its formatted stamp. Every other key is untouched, and the key set grows by exactly the saved keys. |
| TimestampStore.InsertsFor | packages/dbrestore.py:356-373 | One INSERT per module, in the given order, with the module's key and formatted stamp. |
| TimestampStore.SaveStatements | packages/dbrestore.py:349-373 | A save's body is one delete of all the module keys, then one insert per module, each module exactly once. |
| TimestampStore.InsertedRows | packages/dbrestore.py:356-373 | The rows the inserts add: a module's key is present iff the module is listed, holding its formatted stamp. |
| TimestampStore.InsertsEffect | packages/dbrestore.py:356-373 | Inserting distinct fresh keys succeeds and adds exactly the inserted rows. |
| TimestampStore.InsertedRowsKeys | packages/dbrestore.py:356-373 | The inserts add exactly the keys of the listed modules. |
| TimestampStore.InsertedRowsOfAll | packages/dbrestore.py:356-373 | Inserting every module once gives the rows a save adds, whatever the order. |
| TimestampStore.SaveBodyEffect | packages/dbrestore.py:338-373 | The save transaction commits exactly `SaveEffect` when the table exists; no insert collides, since every key was deleted first. Otherwise it fails and changes nothing. |
| TimestampStore.SaveKeepsWellKeyed | packages/dbrestore.py:338-373 | Saving keeps a well-keyed table well keyed. |
| TimestampStore.SaveThenRead | packages/dbrestore.py:316-373 | Round trip: a read after a save returns every saved module with exactly its saved stamp. |
| TimestampStore.ReadBackOne | packages/dbrestore.py:323-330 | A module whose key holds a formatted stamp reads back as that stamp. |
| TimestampStore.StaleModulesContents | packages/dbrestore.py:379-385 | A module is selected iff it is listed and its actual stamp exceeds the stored one (both directions). It appears as often as it is listed. |
| TimestampStore.StaleModules | packages/dbrestore.py:379-385 | The comprehension of `find_modules_to_update`; characterised by `StaleModulesContents`. |
| TimestampStore.NothingStaleAfterSave | packages/dbrestore.py:333-385 | After the actual stamps are saved and read back, no listed module is stale. |
| TimestampStore.NoneStale | packages/dbrestore.py:379-385 | With no stale module listed, nothing is selected. |
| Sanitizer.TestLoginsEffect | packages/dbrestore.py:222-226 | It commits iff `res_users` exists and no other user already logs in as `admin`. Then every password is `admin`, user 1 logs in as `admin`, and the rest is kept. On failure nothing changes. |
| Sanitizer.TestLoginsIdempotent | packages/dbrestore.py:222-226 | A second run changes nothing more. |
| Sanitizer.DbUuidEffect | packages/dbrestore.py:228-242 | It commits iff the config table exists. Then the uuid key holds the new uuid when present, the three entitlement keys are gone, and other keys are kept. |
| Sanitizer.DbUuidIdempotent | packages/dbrestore.py:228-242 | With the same uuid, a second run changes nothing more. |
| Sanitizer.UpdatesEffect | packages/dbrestore.py:244-257 | A list of value updates sets each present key to its setting and adds no key. |
| Sanitizer.AerooEffect | packages/dbrestore.py:244-257 | It commits iff the config table exists. Then each present report-server key holds its development value, no key is added and the rest are kept. |
| Sanitizer.AerooIdempotent | packages/dbrestore.py:244-257 | A second run changes nothing more. |
| Sanitizer.DisablesEffect | packages/dbrestore.py:259-271 | A list of disables deactivates exactly the jobs named, and keeps the jobs and their order. |
| Sanitizer.CronsEffect | packages/dbrestore.py:259-271 | It commits iff `ir_cron` exists. Then the four named jobs are inactive and every other job keeps its flag; no job is added, removed or renamed. |
| Sanitizer.CronsIdempotent | packages/dbrestore.py:259-271 | A second run changes nothing more. |
| Sanitizer.MailEffect | packages/dbrestore.py:273-285 | It commits iff `ir_mail_server` exists. Then every relay points at the debug sink, behind the `debugmail-` marker on its old name. |
| Sanitizer.MailNotIdempotent | packages/dbrestore.py:273-285 | A second run prefixes the marker again. |
| Attachments.RestoreAttachmentsAsWritten | packages/dbrestore.py:204-217 | The source's steps, with the link target spelt as `restore_folder`; characterised by `RelativeDataDirLosesEveryMember` and `AbsoluteDataDirAgrees`. |
| Attachments.RestoreAttachments | packages/dbrestore.py:204-217 | The corrected steps, with the folder's absolute path as the link target; characterised by the lemmas below. |
| Attachments.RestoreSteps | packages/dbrestore.py:209-217 | `mkdir -p`, `ln -s`, unzip and `rm` in order, the first failure ending the steps; characterised by `StepsAfterLink`, `RestoreStepsTree` and `RestoreKeepsNonDirs`. |
| Attachments.MakeDirs | packages/dbrestore.py:209 | `mkdir -p` through the links; characterised by `MakeDirsResolves`, `MadeFolder` and the `MakeDirsKeeps` lemmas. |
| Attachments.MakeLink | packages/dbrestore.py:214 | GNU `ln -s` with its target read from the link's directory; characterised by `LinkLocation`, `CleanLinkSteps` and `ExistingFilestoreDirectoryFails`. |
| Attachments.RemoveLink | packages/dbrestore.py:217 | `rm` without `-r`: removes a link, and fails on a directory or on nothing; characterised by `CleanLinkSteps` and `ExistingFilestoreDirectoryFails`. |
| Attachments.Extract | packages/dbrestore.py:215 | `unzip -n` over the members in archive order, going on after a lost member; characterised by the `Extract` lemmas below. |
| Attachments.RestoreFolder | packages/dbrestore.py:206-208 | The folder's path ends with the database name. |
| Attachments.LinkLocation | packages/dbrestore.py:214 | `ln -s` only ever makes its link at a place that holds neither a link nor an entry: it replaces nothing. |
| Attachments.ResolveThrough | packages/dbrestore.py:213-215 | Resolving a path passes link-free components through unchanged. |
| Attachments.NoLinksResolve | packages/dbrestore.py:213-215 | A path without links on its way resolves to itself. |
| Attachments.MakeDirsThrough | packages/dbrestore.py:209 | `mkdir -p` walks through existing, link-free directories unchanged. |
| Attachments.MakeDirsResolves | packages/dbrestore.py:209 | A successful `mkdir -p` ends at the directory its path resolves to, following links. |
| Attachments.MadeFolder | packages/dbrestore.py:209 | A successful `mkdir -p` of a link-free path leaves a directory at exactly that path. |
| Attachments.MakeDirsKeepsNonDirs | packages/dbrestore.py:209 | `mkdir -p` replaces no file or other non-directory entry, whatever the links. |
| Attachments.MakeDirsKeepsPresent | packages/dbrestore.py:209 | `mkdir -p` removes nothing that exists. |
| Attachments.PlaceKeepsNonDirs | packages/dbrestore.py:215 | Extracting one member overwrites no file or other non-directory entry. |
| Attachments.PlaceKeepsPresent | packages/dbrestore.py:215 | Extracting one member removes nothing that exists. |
| Attachments.PlaceLands | packages/dbrestore.py:215 | A member that is not lost leaves a link or an entry at its landing place. |
| Attachments.ExtractKeepsNonDirs | packages/dbrestore.py:215 | `unzip -n` overwrites no file or other non-directory entry. |
| Attachments.ExtractKeepsPresent | packages/dbrestore.py:215 | Extraction removes nothing that exists. |
| Attachments.ExtractLandsMembers | packages/dbrestore.py:215 | When no member is lost, every selected member has a landing place, and a link or an entry sits there. |
| Attachments.RestoreStepsTree | packages/dbrestore.py:204-217 | The tree after the steps is the one `mkdir -p` left or the one unzip left. |
| Attachments.RestoreKeepsNonDirs | packages/dbrestore.py:204-217 | Whatever the outcome, the link target and the links already present, every existing file or other non-directory entry is unchanged. |
| Attachments.RestoreSuccessLands | packages/dbrestore.py:204-217 | On success, every selected member's landing place, resolved through the links in force during unzip, holds a link or an entry. |
| Attachments.AbsoluteDataDirAgrees | packages/dbrestore.py:206-214 | For an absolute `data_dir`, the source's steps and the corrected ones give the same result. |
| Attachments.LandingDropsOneLevel | packages/dbrestore.py:213-215 | While the link leads back to the folder, a member `filestore/<rest>` lands at `<folder>/<rest>`. |
| Attachments.CleanLinkSteps | packages/dbrestore.py:214-217 | From a clean state, `ln -s` makes exactly the link `<folder>/filestore` to the folder, and `rm` removes it, leaving no link. |
| Attachments.StepsAfterLink | packages/dbrestore.py:214-217 | Once `mkdir -p` and `ln -s` succeeded, the steps succeed iff some member is selected, none is lost and `rm` finds the link. Success leaves the links `rm` left; every failure leaves the links `ln -s` made. |
| Attachments.PlaceFileKeepsNonDirs | packages/dbrestore.py:215 | Writing one member's file replaces no non-directory entry. |
| Attachments.PlaceFileKeepsPresent | packages/dbrestore.py:215 | Writing one member's file removes nothing that exists. |
| Attachments.RestoreSucceedsIff | packages/dbrestore.py:204-217 | From a clean state, the corrected steps succeed iff the folder can be made, some member is selected and none is lost. Success removes the link; a failure after `ln -s` leaves it. |
| Attachments.NestedMemberLandsBelowDatabaseName | packages/dbrestore.py:204-217 | A member `filestore/<db>/<rest>` lands at `<folder>/<db>/<rest>`, one level below the folder's own files, and is found there after a successful restore. |
| Attachments.ExistingFilestoreDirectoryFails | packages/dbrestore.py:213-217 | When `<folder>/filestore` is already a directory, the link goes inside it, `rm` refuses the directory, and the steps never succeed. The link is left behind. |
| Attachments.RerunLeavesSecondLink | packages/dbrestore.py:213-217 | A rerun that finds the old link makes a second link `<folder>/<db>`, and that link is left behind whatever the outcome. |
| Attachments.RelativeDataDirLosesEveryMember | packages/dbrestore.py:206-217 | As written, with a relative `data_dir`, the link dangles: every member is lost, nothing is extracted, the steps fail and the link is left behind. |
| Attachments.DanglingLinkLosesAll | packages/dbrestore.py:215 | While `<folder>/filestore` dangles, extraction loses every selected member and leaves the tree unchanged. |
| Attachments.DanglingLinkLosesMember | packages/dbrestore.py:215 | One member cannot have its directory made through the dangling link. |
| FileSystem.PutKeepsNonDirs | packages/dbrestore.py:209-215 | Placing an entry at a free path never replaces an existing non-directory. |
| FileSystem.PutMakesAncestorsDirs | packages/dbrestore.py:209 | After placement, every proper prefix of the path is a directory, as with `mkdir -p`. |
| FileSystem.PutThroughNonDirFails | packages/dbrestore.py:209-215 | Placement through a non-directory fails. |
| FileSystem.FoundBelowIsDir | packages/dbrestore.py:209 | Everything above an entry that is found is a directory. |
| LoopbackAlias.GetLoAliasAddr | packages/dbrestore.py:52-67 | The nested loops return exactly the reference `AliasFrom` over the interface list. |
| LoopbackAlias.Aliases | packages/dbrestore.py:61-65 | The collected addresses are at most as many as the listed ones. |
| LoopbackAlias.AliasesAreListedAliases | packages/dbrestore.py:61-65 | An address is collected iff it is listed and is present, non-empty and not `127.0.0.1`. The first collected is the first such address in the listing. |
| LoopbackAlias.AliasFrom | packages/dbrestore.py:52-67 | The reference of the outer loop, with `ifname_loopback` carried from one interface to the next; characterised by `AliasIsFirstQualifying`. |
| LoopbackAlias.FirstAlias | packages/dbrestore.py:52-67 | The reference answer exists iff some interface carries both the loopback address and another one. |
| LoopbackAlias.AliasIsFirstQualifying | packages/dbrestore.py:52-67 | With distinct interface names, the loops return the first alias of the first qualifying interface. |
| LoopbackAlias.GetLoAliasAddrIsFirstQualifying | packages/dbrestore.py:52-67 | The same, from the start of the loop. |
| GitUrlPattern.LastOccurrenceIsLast | ansible_env_all.py:36 | The greedy search picks the last occurrence of a token in its range. |
| GitUrlPattern.MatchAtIsGreatest | ansible_env_all.py:36 | At a given start, the engine's colon, slash and `.git` come no earlier than those of any other match. |
| GitUrlPattern.SearchFromIsLeftmost | ansible_env_all.py:36 | `re.search` returns the match at the leftmost start where one exists, and none when there is none. |
| GitUrlPattern.SearchIsLeftmostGreedy | ansible_env_all.py:36 | A match is found iff one exists (both directions). It starts no later than any other, and at its start its greedy groups are the longest. |
| GitUrlPattern.Search | ansible_env_all.py:36 | `re.search` of the URL pattern; characterised by `SearchIsLeftmostGreedy`. |
| GitUrlPattern.SearchFindsLastTokens | ansible_env_all.py:36 | A match at 0 with nothing that could extend its groups is the one the search returns. |
| GitUrlPattern.NestedProjectUrl | ansible_env_all.py:36-46 | For `git@gitlab.com:group/sub/repo.git` the groups are `group/sub` and `repo`. |
| AnsibleInventory.UrlGroups | ansible_env_all.py:36 | There are groups iff the pattern matches the URL. |
| AnsibleInventory.BranchDataToAnsibleJson | ansible_env_all.py:34-48 | One branch's conversion; characterised by `BranchJsonContents`. |
| AnsibleInventory.BranchJsonContents | ansible_env_all.py:34-48 | A branch converts iff it is a dict whose URL matches. A non-matching URL raises. The result carries the two groups as project and repo, and copies server, branch and link. |
| AnsibleInventory.AnsibleNamesDistinct | ansible_env_all.py:12-31 | The mapping's Ansible names are distinct and none is `extra_repo`. |
| AnsibleInventory.MapRowsContents | ansible_env_all.py:53-58 | With distinct target names, each row's variable holds the instance value (or the default) when that is not None. No other variable appears. |
| AnsibleInventory.MappedFieldsContents | ansible_env_all.py:53-58 | The same, for the source's mapping table. |
| AnsibleInventory.MapFields | ansible_env_all.py:53-58 | The mapping loop computes exactly the mapped fields. |
| AnsibleInventory.ConvertAllContents | ansible_env_all.py:59-64 | Converting branches in an order succeeds iff each converts. The result lists the conversions in that order. |
| AnsibleInventory.ConvertBranches | ansible_env_all.py:59-64 | On success, every branch is converted exactly once, in some order. On failure, the error is some branch's conversion error. |
| AnsibleInventory.OrderConvertsAll | ansible_env_all.py:59-64 | A complete order converts iff every branch converts, whatever the order. |
| AnsibleInventory.GetHostVars | ansible_env_all.py:51-65 | It succeeds iff the branches are a dict of convertible records. Then the result is the mapped fields plus `extra_repo` for some branch order. |
| AnsibleInventory.HostVarsContents | ansible_env_all.py:51-65 | The host variables are the mapped fields plus `extra_repo`, a list with one converted entry per branch, and nothing else. |
| AnsibleInventory.EnterpriseDefaultsToFalse | ansible_env_all.py:12-58 | Without `odoo_enterprise` the variable is `False`, never omitted. |
| AnsibleInventory.AddToGroupsEffect | ansible_env_all.py:72-80 | Adding a host appends its fqdn to each group once per listing. A group exists afterwards iff it existed or is listed. |
| AnsibleInventory.AddToGroups | ansible_env_all.py:72-88 | `add_host_to_groups` for each listed group in turn; characterised by `AddToGroupsEffect`. |
| AnsibleInventory.AddHostToGroups | ansible_env_all.py:72-88 | The loop over the host's groups computes exactly `AddToGroups`. |
| AnsibleInventory.GroupsAreMembers | ansible_env_all.py:72-88 | A group exists iff some host lists it. It holds every listing host's fqdn, once per listing, in input order. |
| AnsibleInventory.GroupHostsAreMembers | ansible_env_all.py:72-88 | The hosts of a group are its reference members. |
| AnsibleInventory.GroupExistsIffListed | ansible_env_all.py:72-88 | A group exists iff some host lists it. |
| AnsibleInventory.LastWithIsLast | ansible_env_all.py:90-92 | An fqdn has a last host iff some host has it, and no later host has it. |
| AnsibleInventory.InventoryComplete | ansible_env_all.py:82-98 | When the loop is done, the groups are the reference groups and each fqdn maps to the variables of its last host. |
| AnsibleInventory.AddHost | ansible_env_all.py:82-92 | One loop pass fails iff the host fails the assertion or its variables. Otherwise it extends the groups and host variables for that host. |
| AnsibleInventory.CreateAnsibleInventory | ansible_env_all.py:68-99 | It succeeds iff every host passes, and fails with the first bad host's error. On success it returns the groups and `_meta.hostvars`, where each fqdn has the variables of its last host. |
| AnsibleInventory.ShapeError | ansible_env_all.py:83-85 | The `assert all((fqdn, ansible_groups))` and the value shapes the model handles; characterised by `AddHost` and the `CreateAnsibleInventory` line under Left out. |
| AnsibleInventory.InventoryValue | ansible_env_all.py:93-99 | The returned dict: each group with its hosts and empty vars, then `_meta.hostvars`; characterised by `InventoryComplete`. |
| AnsibleInventory.RemoveNullValues | ansible_env_all.py:102-115 | The in-place cleanup computes exactly the reference `Cleaned`. |
| AnsibleInventory.CleanedDeletesNulls | ansible_env_all.py:111-115 | With nested dicts cleaned, deleting the None entries completes the cleaning. |
| AnsibleInventory.CleanedHasNoNulls | ansible_env_all.py:102-115 | No dict at any depth maps a key to None. A key is kept iff its value was not None. |
| AnsibleInventory.CleanedKeepsNullFree | ansible_env_all.py:102-115 | A value with no nulls is left as it is. |
| AnsibleInventory.CleanedIdempotent | ansible_env_all.py:102-115 | A second cleanup changes nothing. |
| GitHelper.RemotePrefixIsFirstKeyword | packages/git_helper.py:76-83 | The prefix is the first of `apertoso`, `github`, `gitlab` that occurs in the URL. `rem` is used iff none occurs. |
| GitHelper.RemotePrefix | packages/git_helper.py:76-83 | The remote-name prefix for a URL; characterised by `RemotePrefixIsFirstKeyword` and `OrganisationBeforeHost`. |
| GitHelper.OrganisationBeforeHost | packages/git_helper.py:76-83 | An `apertoso` repository on GitHub gets the prefix `apertoso`. |
| GitHelper.RemoteNameInjective | packages/git_helper.py:86 | `prefix_%02d` names differ for different suffixes. |
| GitHelper.RemoteName | packages/git_helper.py:86 | `'%s_%02d' % (prefix, n)`; characterised by `RemoteNameInjective`. |
| GitHelper.SmallestFreeUnique | packages/git_helper.py:85-89 | The smallest free suffix is unique. |
| GitHelper.TakenBound | packages/git_helper.py:85-89 | If the first `n` names are taken, at least `n` names are known, so the loop ends. |
| GitHelper.FreeRemoteName | packages/git_helper.py:85-89 | The loop returns the name with the smallest suffix not among the known remotes, never above their number. |
| GitHelper.ListedIsContained | packages/git_helper.py:39 | A branch on its own line is also found by the substring test. |
| GitHelper.LongerBranchMatchesAsWritten | packages/git_helper.py:33-39 | As written, `remotes/github_00/10.0` is found in a listing that only has `10.0-dev`. The line test does not find it. |
| GitHelper.TrackingBranchListedAsWritten | packages/git_helper.py:39 | As written, `in` on the listing output, a substring test; characterised by `ListedIsContained` and `LongerBranchMatchesAsWritten`. |
| GitHelper.TrackingBranchListed | packages/git_helper.py:39 | The corrected test: some line of `git branch -a` is the ref after its two-character marker; characterised by `LongerBranchMatchesAsWritten` and `CheckRemoteTrackingBranchExists`. |
| GitHelper.WorktreeDecision | packages/git_helper.py:104-129 | It pulls iff the worktree is valid and an update is asked, adds iff the worktree is invalid, and otherwise does nothing. The checked-out ref is `<remote>/<branch>`. |
| GitHelper.RecordListing | packages/git_helper.py:67-72 | The listing loop records every remote by name. Each of their URLs maps back to a remote carrying it, and other cached URLs are kept. |
| GitHelper.ListingKeepsValid | packages/git_helper.py:67-72 | Recording a listing keeps the caches consistent with the repository. |
| GitHelper.GitRepo.constructor | packages/git_helper.py:15-21 | A new repository handle has empty caches. |
| GitHelper.GitRepo.FindRemote | packages/git_helper.py:63-73 | A cached URL is answered from the cache, without listing. Otherwise the listing is recorded first. A remote is found iff the URL was cached or some remote has it, and then cache and repository agree on it. |
| GitHelper.GitRepo.AddRemote | packages/git_helper.py:75-94 | It picks the smallest free name for the URL's prefix. It fails iff git already has the name, and then nothing changes. Otherwise the repository and both caches gain exactly that entry. |
| GitHelper.GitRepo.GetRemote | packages/git_helper.py:57-61 | It returns a remote carrying the clone URL, recorded both ways. A new remote is added only when none was found. |
| GitHelper.GitRepo.CheckRemoteTrackingBranchExists | packages/git_helper.py:33-39 | True iff the listing has the line `remotes/<remote>/<branch>` for the clone URL's remote. That remote is recorded both ways. An already known URL leaves the configured remotes alone; an unknown one adds exactly one remote, under the smallest free name for the URL's prefix. |
| GitHelper.GitRepo.WorktreeCheck | packages/git_helper.py:99-111 | The decision of `WorktreeDecision` is taken with the clone URL's remote, which pulls from that remote and checks out `<remote>/<branch>`. The remote configuration changes exactly as in `CheckRemoteTrackingBranchExists`. |
| GitHelper.RepoExistsIffFetchHead | packages/git_helper.py:27-31 | The repository exists iff its path is set and holds a `FETCH_HEAD` file. |
| GitHelper.GitRepo.CheckRepoExists | packages/git_helper.py:27-31 | The handle's test of its own path; characterised by `RepoExistsIffFetchHead`. |
| GitHelper.ParentOfFoundIsDir | packages/git_helper.py:27-31 | Anything found below a path has a directory at that path. |
| Instance.Searched | packages/instancedata.py:30-39 | The searched directories start at the path, and each is a strictly shorter start of the one before. |
| Instance.FindWorkdirFrom | packages/instancedata.py:23-39 | The search with the corrected stop rule; characterised by `FindWorkdirIsFirstSearched`. |
| Instance.FindWorkdir | packages/instancedata.py:23-26 | A missing path stands for the current directory; the rest is `FindWorkdirFrom`. |
| Instance.FindWorkdirAsWritten | packages/instancedata.py:23-39 | The search as written, bounded by the recursion limit; characterised by the double-slash lemmas below. |
| Instance.FirstWithFile | packages/instancedata.py:27-29 | The first directory holding the instance file, present iff some directory holds it. |
| Instance.FindWorkdirIsFirstSearched | packages/instancedata.py:23-39 | The search returns the first directory, walking upward, that holds the instance file. When none does, it raises or returns None as asked. |
| Instance.AsWrittenLoopsAtDoubleSlash | packages/instancedata.py:30-39 | As written, at `//` without the file the search reaches the recursion limit. |
| Instance.AsWrittenNeverStopsUnderDoubleSlash | packages/instancedata.py:30-39 | As written, under `//srv` the search never stops, whatever the recursion limit. |
| Instance.CorrectedStopsUnderDoubleSlash | packages/instancedata.py:30-39 | The corrected stop rule ends the search under `//srv` as at `/`. |
| Instance.StopRulesAgree | packages/instancedata.py:30-31 | Away from `//`, both stop rules agree on every parent. |
| Instance.StopsAt | packages/instancedata.py:31 | The corrected stop rule: an empty parent, or one made only of slashes; characterised by `CorrectedStopsUnderDoubleSlash` and `StopRulesAgree`. |
| Instance.AsWrittenAgreesAwayFromDoubleSlash | packages/instancedata.py:23-39 | Away from `//`, with enough recursion left, the search as written equals the corrected one. |
| Instance.NormaliseName | packages/instancedata.py:159 | Every space and dot becomes `_`; other characters are kept. |
| Instance.NormaliseNameIdempotent | packages/instancedata.py:159 | The result holds no space or dot, and normalising it again changes nothing. |
| Instance.Modules | packages/instancedata.py:164-168 | A failure is either `extend`'s `TypeError` or a dict of modules (`UnorderedDict`). |
| Instance.ModulesOfConcat | packages/instancedata.py:164-168 | The modules of `bs + cs` are those of `bs` followed by those of `cs`. It succeeds iff both do. |
| Instance.ModulesOfOne | packages/instancedata.py:164-168 | One branch contributes a list's items, or a string's characters, one module each. A dict fails with `UnorderedDict`. A missing key, None, a boolean or a number fails with `extend`'s `TypeError`. |
| Instance.EnabledModules | packages/instancedata.py:166 | What `extend` takes from one branch's `enabled_modules`; characterised by `ModulesOfOne`. |
| Instance.InstanceData.constructor | packages/instancedata.py:70-83 | The handle holds the given data and branches. |
| Instance.InstanceData.GetData | packages/instancedata.py:102-103 | The stored value of the key, or the default when it is missing. |
| Instance.InstanceData.GetDockerImage | packages/instancedata.py:114-121 | In `devel` state (the default) it is the image id, or `db_name` when that id is falsy. In other states it is the image id, which must not be None. A None result fails the assertion. |
| Instance.InstanceData.GetDockerImageTag | packages/instancedata.py:123-125 | The tag, or `latest` when the key is absent. |
| Instance.InstanceData.GetParentDockerImageTag | packages/instancedata.py:132-134 | The parent tag, or `latest` when the key is absent. |
| Instance.InstanceData.GetName | packages/instancedata.py:156-159 | A missing or None name fails the assertion. A string name is returned normalised. |
| Instance.InstanceData.GetModules | packages/instancedata.py:164-168 | The extend loop returns exactly `Modules` of the branches. |
| Instance.InstanceData.SaveKeyToDataFile | packages/instancedata.py:177-180 | Sets `data[key] = value` and leaves every other key and the branches unchanged. |
| PosixPath.SplitHeadShrinks | packages/instancedata.py:30 | The parent never grows, and it shrinks unless it is empty or all slashes. |
| PosixPath.SplitHeadIsPrefix | packages/instancedata.py:30 | The parent is a start of the path. |
| PosixPath.DoubleSlashIsOwnHead | packages/instancedata.py:30 | `os.path.split('//')[0]` is `//`. |
| PosixPath.DoubleSlashTopHead | packages/instancedata.py:30 | `os.path.split('//srv')[0]` is `//`. |
| ProjectSetup.MapDependencies | packages/projectsetup.py:123-131 | It fails iff some item is a list or a dict, which `get` cannot hash. Otherwise it keeps length and order, and each item becomes its table entry when the table has one and is kept otherwise. |
| ProjectSetup.MapItem | packages/projectsetup.py:126-127 | `table.get(item, item)`, raising on an unhashable item; characterised by `MapDependencies`. |
| ProjectSetup.PythonNamesNotKeys | packages/projectsetup.py:21-39 | No pip package name is itself an import name of the table. |
| ProjectSetup.BinNamesNotKeys | packages/projectsetup.py:21-39 | No apt package name is itself an executable name of the table. |
| ProjectSetup.MapDependenciesIdempotent | packages/projectsetup.py:123-131 | When the translation succeeds, translating its result again changes nothing. An unknown item is kept. |
| ProjectSetup.ParseOpenerpModule | packages/projectsetup.py:100-131 | A missing path raises. Anything but a directory gives `([], [])`. |
| ProjectSetup.ParseOpenerpModuleContents | packages/projectsetup.py:106-131 | A directory without a manifest gives `([], [])`. A non-empty result comes from a directory with a manifest, whose `python` and `bin` dependencies (a list's items or a string's characters) are translated item by item. |
| ProjectSetup.MappedDependencies | packages/projectsetup.py:124-129 | `get(key, [])`, iterated: a list's items or a string's characters are translated; anything else raises. Characterised by `ParseOpenerpModuleContents`. |
| ProjectSetup.ManifestDependencies | packages/projectsetup.py:119-131 | The translated `python` and `bin` dependencies of an evaluated manifest; a manifest or `external_dependencies` without `get` raises. Characterised by `ParseOpenerpModuleContents`. |
| ProjectSetup.GetOdooBranches | packages/projectsetup.py:141-154 | Odoo comes first, with the enterprise branch second iff `odoo_enterprise` is truthy. Every branch is at the instance's version. |
| ProjectSetup.OdooBranch | packages/projectsetup.py:41-44 | `ODOO_BRANCH` with the version as `branch`; characterised by `GetOdooBranches`. |
| ProjectSetup.BuildStatements | packages/projectsetup.py:236-253 | The loop builds the `RUN` line, the install line and one line per module. |
| ProjectSetup.GetExtraDepsPip | packages/projectsetup.py:236-243 | The pip fragment is the statements joined by backslash-newline. |
| ProjectSetup.GetExtraDepsApt | packages/projectsetup.py:246-253 | The same, with `apt-get install -y`. |
| ProjectSetup.DepsTextClosedForm | packages/projectsetup.py:236-253 | The fragment is `RUN set -x && `, the install command, then each module's line, separated by backslash-newline. |
| ProjectSetup.JoinIsPrefixedConcat | packages/projectsetup.py:243 | `sep.join` is the first part followed by each later part behind the separator. |
| ProjectSetup.DockerfileRules | packages/projectsetup.py:271-299 | The `FROM` line names the tag iff the tag is truthy. After `USER root` come the apt line, the pip line and the two egg lines, in that order, each exactly when wanted, each with its content, and then `USER odoo`. The file ends with `ADD addons-extra` iff not in devel mode, else with `USER odoo`. |
| ProjectSetup.DockerfileLines | packages/projectsetup.py:256-299 | The Dockerfile's lines; characterised by `DockerfileRules`. |
| ProjectSetup.FetchDecision | packages/projectsetup.py:177-183 | It clones iff the repository is missing, and keeps it iff it exists, no update is asked and the branch is tracked. The tracking test runs iff the repository exists and no update is asked. |
| ProjectSetup.FetchRepos | packages/projectsetup.py:169-183 | Each project gets its own decision, and exactly the looked-up projects are reported. |
| ProjectSetup.LookedUp | packages/projectsetup.py:180-183 | Only listed projects are looked up. |
| ProjectSetup.UpdateSkipsTrackingCheck | packages/projectsetup.py:180-182 | With an update asked, no tracking branch is looked up. |
| Strings.ParseIntOfIntToString | packages/dbrestore.py:326 | Reading back a formatted integer stamp gives the stamp. |
| Strings.ParseNatOfZeroPad2 | packages/git_helper.py:86 | Reading back `%02d` gives the number. |
| Strings.ZeroPad2Injective | packages/git_helper.py:86 | `%02d` is injective. |
| Strings.ReplacePrefixAway | packages/dbrestore.py:325 | `replace(prefix, '')` on the prefix plus a rest without the prefix gives the rest. |

## Left out

- The restore pipelines `restore_db`, `restore_db_unzip`, `restore_db_slow` and `restore_db_docker` (packages/dbrestore.py:158-202) are not modelled. They are 7z, unzip, psql and docker processes. Note that `restore_db_docker` runs its pipeline without `pipefail`, so a failing first stage goes unnoticed.
- `get_db_host` (packages/dbrestore.py:35-49) is left out: it is a gateway lookup through netifaces. For `get_lo_alias_addr` the interface list is an input, not the operating system's.
- SQL text is not parsed. Each statement is modelled by its effect on the tables, and `pg_terminate_backend` by the connection becoming `Terminated`.
- The `create_date`/`write_date` columns of the inserted rows, `datetime.utcnow()` and the log calls are left out. `uuid.uuid1()` is the parameter of `SetDbUuid`.
- TimestampStore.SaveThenRead: timestamps are integers, which is weaker than the source's floats. `'{}'.format` and `float()` are modelled as integer formatting and parsing. In Python 2, `str` of a float can lose digits, so the exact round trip holds only in this idealised model.
- ModuleWalk.TreeMtimeIsMaximum: mtimes are integers, not floats. Its maximum is stated for a non-negative initial `mtime`, the source's default.
- The order of rows returned without `ORDER BY`, of `git remote` output and of dict iteration is not fixed. The methods take any order, and their contracts hold for every order.
- DbRestore.DbTool.CreatedbIfNotExists: this is the corrected member, with the identifier quoted. The statement as written is modelled by `DbRestore.CreateAsWritten`; see Findings.
- DbRestore.DbTool.ReadModuleTimestampsFromDb: this is the corrected member, with the prefix escaped in the LIKE pattern. The pattern as written is modelled by `TimestampStore.SelectTimestampRowsAsWritten`; see Findings.
- DbRestore.DbTool.RestoreAttachments: this is the corrected member, with the folder's absolute path as the link target. The steps as written are `Attachments.RestoreAttachmentsAsWritten`; see Findings. They agree for an absolute `data_dir`.
- DbRestore.DbTool.RestoreAttachments: the `chown` of docker mode (packages/dbrestore.py:219-220) is left out, and the archive's members are an input. Unzip's exit codes are reduced to "a member was lost" and "nothing matched". Resolution follows links to a nesting depth of 40, with each followed link spending one unit for the rest of the path. Linux counts at most 40 links over the whole lookup, so the model accepts some paths Linux rejects with `ELOOP`. `ln`'s refusal, `rm`'s refusal and a failed `mkdir -p` are one error each.
- DbRestore.DbTool.RestoreAttachments: an existing `<folder>/filestore` directory, or a link left by an earlier failed run, does not stop the steps. The link goes inside it, as GNU `ln` does, and is left behind (`ExistingFilestoreDirectoryFails`, `RerunLeavesSecondLink`).
- RestoreSucceedsIff: the iff is stated from a clean state (no links, and no `filestore` entry in the folder). Other states are covered by `RestoreKeepsNonDirs`, `RestoreSuccessLands`, `ExistingFilestoreDirectoryFails` and `RerunLeavesSecondLink`.
- The module walk, `check_repo_exists` and `parse_openerp_module` read the tree as `os.stat` sees it, with links already resolved. Only the attachment steps keep links beside the tree, and `DbTool`'s links are not applied to the module walk.
- GitHelper.GitRepo.CheckRemoteTrackingBranchExists: this is the corrected member, with a line test in place of the substring test, and the `git branch -a` output is an input. The test as written is `GitHelper.TrackingBranchListedAsWritten`; see Findings.
- GitHelper.GitRepo.WorktreeCheck: `worktree_prune` and the `git pull`, `checkout` and `worktree add` calls are not run. The action is returned instead, with its directory and ref. `git remote` output is the field `configured`, with `rstrip` already applied.
- The clone and fetch subprocesses of `fetch_repos` are left out. `FetchRepos` returns the chosen actions. Whether each project's tracking branch exists is its input `tracked`, not the result of `GitRepo.CheckRemoteTrackingBranchExists` on that project's repository.
- Instance.FindWorkdirIsFirstSearched: the found path is returned as reached; `os.path.abspath` is left to the caller, and `os.getcwd()` is a parameter.
- Instance.Modules: an `enabled_modules` dict fails with `UnorderedDict`, where Python 2's `extend` adds its keys in hash order, which the model does not fix. A missing, None, boolean or numeric value is `extend`'s `TypeError`.
- Instance.InstanceData.GetModules: the same, for the loop over the branches.
- Instance.InstanceData.GetName: a present name that is not a string fails, where Python would raise `AttributeError`.
- AnsibleInventory.CreateAnsibleInventory: a string of groups adds one group per character, as Python does. An integer fqdn, integer group entries and a dict of groups are reported as `UnsupportedShape`, where Python accepts them (an integer as a key and host name, a dict's keys as groups in hash order). A list or dict fqdn or group entry is `UnsupportedShape` too, where Python raises `TypeError` (unhashable).
- `InstanceData.__init__`'s file lookup, `fetch`, `load_from_data_file` and the JSON writes (packages/instancedata.py:70-100, 170-182) are file and network I/O and are left out. The constructor takes the data and branches directly.
- The `eval` of the manifest in `parse_openerp_module` is left out: the evaluated manifest is an input.
- ProjectSetup.MapDependencies: a list or dict item fails with `Unhashable`, as Python's `get` raises `TypeError`. Dependencies given as a dict fail with `UnorderedDict` (in `MappedDependencies`), where Python iterates the dict's keys in hash order, which the model does not fix.
- The Dockerfile is returned as its lines and not written. The `.dockerignore` file (packages/projectsetup.py:301-309) is left out, and the copy of the debugger egg is reduced to whether the egg was found.
- ProjectSetup.DockerfileLines: its inputs are already digested, which leaves out three cases of the source.
  - `get_parent_docker_image`'s assertion on a missing image (packages/instancedata.py:127-130) is not modelled; the image is a string.
  - The tag is a string or absent, so a tag that is `False` or a number (formatted by `format`) is not modelled.
  - The apt and pip packages are sequences of names. A string `apt_package_ids` or `pip_module_ids`, which the loops at packages/projectsetup.py:240 and packages/projectsetup.py:250 would go through one character at a time, is not modelled.
- SqlState.QuotedIdentifier: any double quote inside a quoted name is a syntax error here. PostgreSQL reads a doubled `""` as one quote, so a target `a""b` is dropped under the name `a"b`; the model does not capture this.
- SqlState.UnquotedIdentifier: PostgreSQL's truncation of identifiers to 63 bytes (NAMEDATALEN) and its reserved keywords are not modelled, for quoted or unquoted names.
- GitHelper.GitRepo: `cloneUrl` is always a string. The source's default `clone_url=None` (packages/git_helper.py:15-21) makes `add_remote`'s `'apertoso' in url` raise `TypeError`; the model does not have that case.
- The rest of `packages/projectsetup.py` is left out: `link_addons`, `copy_addons`, `check_folders` and the docker helpers are subprocess and filesystem work.
- `starttest.py`, `packages/dbbackup.py`, `packages/odooconnector.py` and `status_sender.py` are not part of this model. They are docker orchestration, downloads and RPC/HTTP wrappers.

## Findings

| source | as written | input that shows it | evidently intended | confidence | as-written member | corrected member |
|---|---|---|---|---|---|---|
| packages/dbrestore.py:319-322 | The LIKE pattern is the prefix plus `%`, with the prefix's `_` left unescaped, so `_` matches any character. | A config key `apertoso.module-timestamp-sale` is selected and read as a module named by the whole key. | Select exactly the keys that start with `apertoso.module_timestamp_`. | not executed | TimestampStore.AsWrittenReadsForeignKey | TimestampStore.SelectTimestampRows |
| packages/dbrestore.py:138 | `CREATE DATABASE` takes the target name unquoted, so PostgreSQL folds it to lower case. The DROP at line 154 quotes it. | Target `Test`: `test` is created, connecting to `Test` fails, a rerun fails on the duplicate, and DROP does not remove `test`. | Create the database under its exact name, quoted as in the DROP. | not executed | DbRestore.AsWrittenCreatesFoldedName | DbRestore.CreateQuotedConnects |
| packages/instancedata.py:30-39 | The upward search stops only at an empty parent or `/`. | Path `//srv` without an instance file: `split` gives `//`, which is its own parent, so the recursion never stops. | Stop at any parent made only of slashes. | not executed | Instance.AsWrittenNeverStopsUnderDoubleSlash | Instance.CorrectedStopsUnderDoubleSlash |
| packages/git_helper.py:39 | `remote_branch in git.branch('-a')` is a substring test over the whole listing. | A listing with only `remotes/github_00/10.0-dev` reports `remotes/github_00/10.0` as present. | Test whether some listed branch is exactly `remotes/<remote>/<branch>`. | not executed | GitHelper.LongerBranchMatchesAsWritten | GitHelper.GitRepo.CheckRemoteTrackingBranchExists |
| packages/dbrestore.py:206-214 | `ln -s` is given `restore_folder` as its target, and that path is relative when `data_dir` is relative. A relative link target is read from the link's own directory, `<folder>/`, not from the working directory. | `data_dir` `data`, working directory `/srv`, database `db1`. The link `/srv/data/filestore/db1/filestore` leads to `data/filestore/db1`, which means `/srv/data/filestore/db1/data/filestore/db1`, and that does not exist. Every member under `filestore/` is lost and unzip fails. | Give `ln -s` the folder's absolute path. | not executed | Attachments.RelativeDataDirLosesEveryMember | Attachments.RestoreSucceedsIff |
