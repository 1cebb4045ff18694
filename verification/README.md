# A verified model of the migration engine, the SQLite pool plugin and three repositories

This project models, in Dafny, the core of a web application server built on SQLite.

- **The migration engine** (`app/server/plugins.py`). It is an sqlx-compatible migration tool:
  - migration files are named `<version>_<description>[.up|.down].sql`;
  - `migrate add` creates an up/down pair of them;
  - `migrate run` applies the pending `up` files in version order and records each one in the `_sqlx_migrations` table with its SHA-384 checksum;
  - `migrate revert` undoes applied versions that have a `down` file;
  - `migrate info` reports each `up` file as installed, pending, or installed with a different checksum.

  Before anything executes, `run` and `revert` make the same checks:
  - a partially applied (dirty) row aborts;
  - an applied version with no file aborts, or warns under `--ignore-missing`;
  - a target version below the latest applied version is refused.
- **The SQLite pool plugin configuration** (`app/server/plugins/database.py`):
  - the defaults of `SQLitePoolConfig`;
  - how it makes every pool's app-state key unique against a class-wide registry (`key`, then `key_1`, `key_2`, …);
  - how the plugin validates several configurations and installs one lifespan and two dependency providers per configuration.
- **The quizzes, chat and tasks repositories** (`app/domain/*/repositories.py`):
  - folding the rows of a one-to-many join into records (a quiz with its questions, a message with its attachments);
  - grouping rows by id in first-occurrence order;
  - building partial `UPDATE` statements from the fields the caller supplied (`MISSING` / `UNSET` mean "leave alone");
  - reading flags stored as `0`/`1`;
  - converting task recurrences to and from iCalendar RRULEs.

The modules follow the program's structure.

| module | what it models |
|---|---|
| `Wrappers` | `Option` and `Result` |
| `Decimal` | decimal digit strings: `int(...)` on the version digits and `str(n)` in `key_n` |
| `IntSets` | the least and greatest element of a finite set of versions |
| `MigrationFile` | `MIGRATION_FILE_RE` under `re.match` and `Migration.from_file` |
| `Resolver` | `Migrator`, `resolve_migrations` and `migrate add` |
| `Ledger` | the `_sqlx_migrations` table, the dirty and missing-file checks, and the latest version |
| `Runner` | `migrate run` |
| `Revert` | `migrate revert` |
| `Info` | `migrate info` |
| `PoolConfig` | `SQLitePoolConfig` and the plugin's `_validate_config` / `on_app_init` |
| `Grouping` | grouping rows by key in dictionary insertion order |
| `SqlUpdate` | the `MISSING`/`UNSET` field and the partial-update builders |
| `Quizzes` | the quiz and quiz-question repositories |
| `Chat` | the conversation and message repositories |
| `Recurrence` | `_recurrence_from_ical` and `_recurrence_to_ical` |
| `Tasks` | task `update` and `_map_task_row` |

The model works at these levels:

- The file system is a `Source`:
  - missing;
  - not a directory;
  - or a directory holding a sequence of `(name, bytes)` entries in glob order.
- The table is a finite map from version to row.
- SHA-384 and UTF-8 decoding are the two fields of a `FileOracle`.
- Executing a migration script is a function parameter `exec` that says whether the script succeeded.
- Every abort (`exit(...)`) becomes an error value in the outcome. The outcome also carries the table as the command leaves it, the printed warnings, and one event per `Applied` / `Can apply` / `Skipped` line.

## Model

| member | source | states |
|---|---|---|
| MigrationFile.SuffixUnique | app/server/plugins.py:22 | the three suffix forms `.sql`, `.up.sql` and `.down.sql` cannot both start the same text, so the direction group is determined by where the description ends |
| MigrationFile.MatchSuffix | app/server/plugins.py:22 | the optional `.down` or `.up` group followed by `.sql`: it reports the suffix that starts the text, and reports none exactly when no suffix form does |
| MigrationFile.DigitRun | app/server/plugins.py:22 | the greedy `\d+` consumes a maximal run of digits: all consumed characters are digits and the next one is not |
| MigrationFile.ScanDescription | app/server/plugins.py:22 | the lazy `.+?`: the end it returns is a valid description end (at least one non-newline character followed by a suffix), and no earlier end is valid; none is returned only when no end exists at all |
| MigrationFile.MatchName | app/server/plugins.py:21-23 | `re.match` of the pattern: a match it returns is a match of the pattern; every match has the same version digits and a description at least as long; it fails only when no version/description/suffix split matches. Text after `.sql` is ignored, because the pattern is not anchored at the end |
| MigrationFile.FromFileSpec | app/server/plugins.py:36-52 | the contract of `MigrationFile.FromFile`: `from_file` raises on a name exactly when no split matches; it fails on undecodable bytes only after the name matched; it takes the version from the digits, the description from the shortest slug with `_` turned into spaces, and the direction from the suffix (`up` when absent); the checksum hashes the raw bytes and `no_tx` is the `-- no-transaction` prefix of the decoded text |
| MigrationFile.FromMatchedName | app/server/plugins.py:42-52 | once the name matches and the bytes decode, `from_file` succeeds with the matched version, description and direction |
| MigrationFile.Replace | app/server/plugins.py:43 | the single-character `str.replace` used on descriptions (`_` to space in `from_file`, space to `_` in `migrate add` at line 321) turns every occurrence of the one character into the other, changes nothing else and keeps the length; the two directions are inverse on plain descriptions (see `PlainDescriptionRoundTrip`) |
| MigrationFile.PlainDescriptionRoundTrip | app/server/plugins.py:43 | for a description with no `_`, `.`, `/` or newline, turning spaces into underscores and back gives the description back |
| MigrationFile.NoSuffixInside | app/server/plugins.py:22 | no suffix can start inside a stretch of the name without a `.`, so the lazy description cannot stop inside it |
| MigrationFile.AddedNameMatches | app/server/plugins.py:320-327 | a name `migrate add` writes (14-digit stamp, description without `_`, `.`, `/` or newline) matches with the stamp as version, the whole slug as description, and the written direction |
| MigrationFile.AddedNameRoundTrip | app/server/plugins.py:320-327 | `from_file` on a file `migrate add` wrote gives back the stamp's value as version, the written direction and the original description: `add` and `from_file` are inverse on such descriptions |
| MigrationFile.UnanchoredMatch | app/server/plugins.py:21-23 | because the match is not anchored, `1_a.sql.down.sql` is read as an `up` migration with description `a`: a behaviour of the pattern as written, pinned down by a concrete input |
| Decimal.Show | app/server/plugins/database.py:50 | `str(n)` is a non-empty digit string, one digit long exactly for `n < 10` |
| Decimal.ValueOfShow | app/server/plugins/database.py:50 | `int(str(n)) == n`: the digit value of the printed number is the number |
| Decimal.ShowInjective | app/server/plugins/database.py:50 | distinct numbers print differently, so the candidates `key_1`, `key_2`, … are distinct |
| IntSets.Least | app/server/plugins.py:105-115 | the least element of a non-empty set of versions, as the `ORDER BY version LIMIT 1` dirty check picks it |
| IntSets.Greatest | app/server/plugins.py:412-418 | the greatest element of a non-empty set of versions, as the `max(..., key=version)` of the latest-version computation |
| IntSets.Ascending | app/server/plugins.py:126-133 | a set of versions listed in strictly increasing order (the `ORDER BY version` walk), with exactly the set's elements |
| Resolver.SqlFiles | app/server/plugins.py:66 | the glob `*.sql` keeps exactly the entries whose name ends in `.sql` |
| Resolver.ParseAllValues | app/server/plugins.py:65-67 | when the comprehension over `from_file` succeeds, it yields one migration per file, each the result of `from_file` on that file |
| Resolver.ParseAllSucceeds | app/server/plugins.py:65-67 | the comprehension succeeds whenever every file parses |
| Resolver.ParseAllFirstError | app/server/plugins.py:65-67 | a failing comprehension fails with the error of the first file that fails to parse, and every earlier file parses |
| Resolver.Insert | app/server/plugins.py:69 | one step of the sort: inserting into a version-sorted list keeps it sorted and adds exactly the new element (its multiset fact is `InsertPermutes`) |
| Resolver.InsertPermutes | app/server/plugins.py:69 | insertion adds the element to the multiset of the list, and nothing else |
| Resolver.SortByVersion | app/server/plugins.py:69 | `sort(key=version)` returns a permutation of its input sorted by version |
| Resolver.InsertStable | app/server/plugins.py:69 | insertion keeps equal-version elements in input order, with the inserted one last |
| Resolver.SortStable | app/server/plugins.py:69 | the sort is stable: the migrations sharing a version (an up/down pair) keep their glob order |
| Resolver.Resolve | app/server/plugins.py:56-71 | `Migrator(source).resolve_migrations()`: a non-directory source is refused; a missing one gives no migrations; a directory gives the parse error of its `.sql` files, or a version-sorted permutation of their descriptors |
| Resolver.ResolveStable | app/server/plugins.py:63-71 | for every version, the resolved list keeps the files of that version in glob order |
| Resolver.WriteFile | app/server/plugins.py:331-334 | `write_text` leaves the named file with the new content and every other file untouched; in a directory with distinct names the names stay distinct and the named file holds only the new content, the old content being overwritten |
| Resolver.MigrateAdd | app/server/plugins.py:304-339 | `migrate add` refuses a source that is not a directory; otherwise it leaves a directory holding the up and down files `<stamp>_<slug>.<dir>.sql` with their placeholder comments, keeps every other file unchanged, and adds no file besides those two; in a directory with distinct names, the up and down files hold only their placeholders, so a file of the same name written earlier is overwritten |
| Resolver.AddToMissing | app/server/plugins.py:311-334 | on a missing source `migrate add` creates the directory with exactly the up file and then the down file |
| Resolver.ResolvePair | app/server/plugins.py:63-71 | two `.sql` files that parse, in version order, resolve to their two descriptors in glob order |
| Resolver.AddedIsSql | app/server/plugins.py:326 | every file `migrate add` writes ends in `.sql`, so the resolver's glob picks it up |
| Resolver.AddThenResolve | app/server/plugins.py:304-339 | resolving right after `migrate add` into a fresh source yields the up then the down migration, both with the stamp's version and the original description |
| Ledger.Preflight | app/server/plugins.py:105-133 | the checks before the loop: a dirty row aborts exactly when one exists, naming the lowest dirty version; otherwise the lowest applied version without a file aborts exactly when such a version exists and missing files are not ignored; otherwise the warnings are exactly the missing versions, in increasing order |
| Ledger.Latest | app/server/plugins.py:412-418 | the latest applied version is 0 for an empty table, and otherwise an applied version at least every other |
| Ledger.LatestAtMost | app/server/plugins.py:412-418 | a bound on every applied version (and on 0 when the table is empty) bounds the latest version |
| Runner.RunSteps | app/server/plugins.py:430-483 | the loop of `migrate run` never changes or removes a row that is already there; every row it adds is for a pending `up` version (not applied before the run, and not above the target); a dry run adds nothing. Where an error stops it is stated by `RunStepsStopsAtFailure` |
| Runner.Run | app/server/plugins.py:399-483 | a failed pre-check leaves the table as it was with its error; otherwise the warnings are the missing-file warnings, and a target below the latest applied version is refused before anything executes |
| Runner.MigrateRun | app/server/plugins.py:373-483 | `migrate run` reports a source that does not resolve and changes nothing; otherwise it runs on the resolved migrations |
| Runner.RunStepsStopsAtFailure | app/server/plugins.py:430-472 | a loop that ends in an error stopped at one `up` file: an applied file whose checksum changed (`Modified`), or a pending file whose script or insert failed (`ExecFailed`). Every earlier `up` file passed the checksum check and, when it was to be applied, ran; the table holds the old rows plus exactly the pending versions before that file; and no later file ran or printed a line |
| Runner.RunStepsKeys | app/server/plugins.py:430-472 | an error-free, non-dry loop leaves exactly the rows it started with plus one for each pending version |
| Runner.RunStepsRows | app/server/plugins.py:453-465 | each pending migration's row records its description, success and the file's checksum |
| Runner.RunStepsNoTamper | app/server/plugins.py:434-440 | an error-free loop implies no `up` file of an applied version was modified since it was applied |
| Runner.RunStepsSettled | app/server/plugins.py:430-449 | when every `up` file is applied with its checksum, or lies above the target, the loop changes nothing, succeeds, and prints only `Skipped` lines |
| Runner.RunComplete | app/server/plugins.py:373-483 | a successful `migrate run` adds exactly the pending versions to the table, keeps every earlier row, and records each new one as applied with its file's checksum |
| Runner.RunNeverAboveTarget | app/server/plugins.py:420-449 | whatever happens, `migrate run` keeps every existing row, and each new row is a resolved version at or below the target |
| Runner.RunDryRun | app/server/plugins.py:450-451 | `--dry-run` never changes the table |
| Runner.RunRejectsTampering | app/server/plugins.py:436-440 | an applied `up` file whose content changed always makes `migrate run` fail |
| Runner.RunKeepsChecks | app/server/plugins.py:105-133 | a successful run adds no dirty row and no version without a file, so the pre-checks of the next command give the same verdict and warnings |
| Runner.RunSettles | app/server/plugins.py:373-483 | after a successful run every `up` file is applied with its checksum or lies above the target, and the latest version does not exceed the target |
| Runner.RunIdempotent | app/server/plugins.py:373-483 | running `migrate run` again right after a successful run (dry or not) succeeds, changes nothing, prints the same warnings and only `Skipped` lines |
| Revert.Reverse | app/server/plugins.py:574 | `reversed(migrations)` holds the same elements in the opposite order |
| Revert.RevertSteps | app/server/plugins.py:574-618 | the loop of `migrate revert` only deletes rows, and only those of versions applied before the loop that have a `down` file and lie above the target; a dry run deletes nothing |
| Revert.RevertAsWritten | app/server/plugins.py:543-618 | the command as written: the same pre-checks as `migrate run`, and the same refusal of a target below the latest applied version |
| Revert.MigrateRevert | app/server/plugins.py:517-618 | `migrate revert` as written: a source that does not resolve is reported and changes nothing; otherwise the as-written revert runs on the resolved migrations |
| Revert.RevertIntended | app/server/plugins.py:543-618 | the corrected command (see Findings): the same pre-checks; without a target, exactly the as-written command; with a target, the corrected targeted revert, which refuses a target above the latest applied version |
| Revert.MigrateRevertIntended | app/server/plugins.py:517-618 | the corrected `migrate revert`: a source that does not resolve is reported and changes nothing; otherwise the corrected revert runs on the resolved migrations |
| Revert.RevertStepsOneRow | app/server/plugins.py:574-618 | without a target, the newest-first loop deletes at most one row: that of the greatest applied version with a `down` file, and always that one when it succeeds and is not a dry run |
| Revert.RevertWithoutTarget | app/server/plugins.py:517-618 | `migrate revert` without a target undoes exactly the latest revertible version, or nothing |
| Revert.RevertDryRun | app/server/plugins.py:588-589 | `--dry-run` never changes the table, as written and as corrected |
| Revert.RevertStepsAllSkipped | app/server/plugins.py:581-587 | when every applied version is at or below the target, the loop skips everything and deletes nothing |
| Revert.RevertWithTargetChangesNothing | app/server/plugins.py:564-587 | as written, `migrate revert --target-version` never deletes a row, whatever the target (see Findings) |
| Revert.RevertToTarget | app/server/plugins.py:564-618 | the corrected targeted revert: it refuses a target above the latest applied version, and otherwise runs the revert loop down to the target |
| Revert.RevertStepsToTarget | app/server/plugins.py:574-618 | with a target, an error-free, non-dry loop deletes exactly the applied versions above the target that have a `down` file |
| Revert.RevertToTargetRemovesAbove | app/server/plugins.py:564-618 | a successful corrected targeted revert leaves exactly the rows at or below the target, plus those above it with no `down` file, with their contents unchanged |
| Info.StatusOf | app/server/plugins.py:668-678 | the three statuses are exclusive and exhaustive: mismatch when the version is applied with another checksum, installed when applied with the same checksum, pending when not applied |
| Info.Ups | app/server/plugins.py:664-666 | `migrate info` lists exactly the `up` migrations |
| Info.UpsAppend | app/server/plugins.py:664-666 | the skip of `down` files keeps the resolved order: the `up` migrations of a concatenation are those of the first part followed by those of the second, and a single migration is kept exactly when it is an `up` one |
| Info.InfoList | app/server/plugins.py:664-690 | one line per `up` migration in resolved order, each with the status its version and checksum determine |
| Info.InfoIgnoresDirtyRows | app/server/plugins.py:656-662 | `migrate info` reads only the version and checksum of each row, so the success flag and description do not change its report |
| Info.EditedFileMismatches | app/server/plugins.py:669-674 | a file whose bytes changed after it was applied is reported as installed with a different checksum, given that the digest has no collisions |
| PoolConfig.CandidateInjective | app/server/plugins/database.py:50 | the alternative keys `key_n` are pairwise distinct |
| PoolConfig.FirstFree | app/server/plugins/database.py:47-51 | the recursion of `_ensure_unique` ends at the first alternative from `key_n` on that is not in the registry, and every alternative before it is in the registry |
| PoolConfig.EnsureUnique | app/server/plugins/database.py:40-51 | `_ensure_unique` returns a key not in the registry: the key itself when free, and otherwise the first free `key_k` from k = 1 on |
| PoolConfig.PostInit | app/server/plugins/database.py:53-57 | constructing a configuration replaces only its app-state key, with one not yet registered, and registers it |
| PoolConfig.ConstructAll | app/server/plugins/database.py:33 | configurations constructed one after another against the class-wide registry get pairwise distinct app-state keys, none already registered; the registry grows by exactly those keys |
| PoolConfig.ElementsCount | app/server/plugins/database.py:125-135 | the set of a list's keys has as many elements as the list exactly when no key repeats: the length test of `_validate_config` |
| PoolConfig.ValidateConfig | app/server/plugins/database.py:121-136 | a single configuration always passes; otherwise repeated pool dependency keys are reported first, then repeated connection keys, and the configurations pass exactly when neither repeats |
| PoolConfig.Install | app/server/plugins/database.py:142-143 | the loop appends one lifespan per configuration, in order |
| PoolConfig.InstallKeys | app/server/plugins/database.py:142-153 | the loop adds exactly the pool and connection dependency keys of the configurations to the dependencies |
| PoolConfig.InstallKeepsOthers | app/server/plugins/database.py:144-153 | a dependency under a key that no configuration uses is left unchanged |
| PoolConfig.OnAppInit | app/server/plugins/database.py:138-155 | `on_app_init` fails exactly when validation fails, with its error; otherwise it is the install loop, appending each configuration's lifespan in order and adding exactly the configurations' pool and connection keys to the dependencies |
| PoolConfig.InstallProviders | app/server/plugins/database.py:142-153 | with distinct keys, each configuration's pool key provides its pool and its connection key provides a connection from that pool |
| PoolConfig.OnAppInitProviders | app/server/plugins/database.py:138-155 | after a successful `on_app_init`, each configuration's two keys provide its own pool and connection, unless a pool key of one configuration is the connection key of another |
| PoolConfig.TwoDefaultsClash | app/server/plugins/database.py:24-57 | two configurations left at their defaults, constructed against an empty registry, get the app-state keys `db_pool` and `db_pool_1`, but they share the pool dependency key `db_pool`, so `on_app_init` refuses them with the pool-key error |
| PoolConfig.CrossedKeysPass | app/server/plugins/database.py:121-155 | validation checks pool keys and connection keys separately, so two configurations whose keys cross pass it; the second configuration's providers then replace the first's |
| Grouping.IndexOf | app/domain/chat/repositories.py:466 | the position of the group with a key: the first one with that key, or past the end when no group has it |
| Grouping.DedupElements | app/domain/chat/repositories.py:463-470 | the dictionary's keys are exactly the row keys, without repeats |
| Grouping.DedupFirstOccurrence | app/domain/chat/repositories.py:468-470 | the dictionary's keys are in the order of their first occurrence among the rows |
| Grouping.GroupByKeys | app/domain/chat/repositories.py:463-470 | the groups' keys are the row keys, deduplicated in first-occurrence order |
| Grouping.GroupByRows | app/domain/chat/repositories.py:465-466 | each group holds exactly the rows with its key, in row order |
| Grouping.GroupByMemberKeys | app/domain/chat/repositories.py:465-466 | every row of a group carries the group's key |
| Grouping.FilterAbsent | app/domain/chat/repositories.py:465-466 | a key carried by no row selects no rows |
| SqlUpdate.FlagOf | app/domain/chat/repositories.py:156 | `row[col] == 1` is true exactly for the stored integer 1 |
| SqlUpdate.FlagRoundTrip | app/domain/tasks/repositories.py:268 | a boolean stored as SQLite stores it (0 or 1) reads back as the same boolean |
| SqlUpdate.Assignment | app/domain/tasks/repositories.py:320 | `col = :col` starts with the column name and is four characters longer than twice the name |
| SqlUpdate.AssignmentInjective | app/domain/tasks/repositories.py:316-357 | distinct columns give distinct assignments |
| SqlUpdate.JoinSnoc | app/domain/tasks/repositories.py:363 | `sep.join` of a list extended by one part is the join of the list, the separator and the part |
| SqlUpdate.SelectedSpec | app/domain/tasks/repositories.py:316-357 | the selected columns are exactly the supplied ones |
| SqlUpdate.BoundSpec | app/domain/tasks/repositories.py:316-357 | the bound parameters are exactly the supplied columns |
| SqlUpdate.BoundKeys | app/domain/tasks/repositories.py:316-357 | the bound parameter names are the set of selected column names |
| SqlUpdate.BoundValues | app/domain/tasks/repositories.py:316-357 | with distinct column names, each supplied column is bound to its own value |
| SqlUpdate.SetAllSets | app/domain/tasks/repositories.py:316-357 | running the `if … is not UNSET` blocks appends the assignments of exactly the supplied columns, in block order |
| SqlUpdate.SetAllParams | app/domain/tasks/repositories.py:316-357 | running the blocks adds exactly the supplied columns' parameters to those already bound |
| SqlUpdate.AppendAllJoin | app/domain/quizzes/repositories.py:254-269 | growing the query text by `, col = :col` per supplied column gives the comma-join of the initial clause and the supplied assignments |
| Quizzes.InsertMany | app/domain/quizzes/repositories.py:34-46 | one inserted question per input, in input order, each the result of the n-th insert for that quiz and input |
| Quizzes.Get | app/domain/quizzes/repositories.py:94-124 | no rows means no quiz; otherwise the quiz columns come from the first row, with one question per row when the first row has a question and none otherwise |
| Quizzes.QuestionsIn | app/domain/quizzes/repositories.py:151-165 | only rows that carry a question contribute a question |
| Quizzes.ListByUserGroups | app/domain/quizzes/repositories.py:135-167 | the dictionary loop builds exactly one quiz per group of the reference grouping, in the same order, each from its own group |
| Quizzes.ListByUserSpec | app/domain/quizzes/repositories.py:127-167 | the contract of `Quizzes.ListByUser`: `list_by_user` returns one quiz per distinct quiz id, in first-occurrence order, each with the columns of its first row and the questions of its rows that have one, in row order |
| Quizzes.QuestionUpdateParams | app/domain/quizzes/repositories.py:254-267 | with `QuestionUpdateSql`, the contract of `Quizzes.QuestionUpdate`: the parameters are `id` and `quiz_id` plus exactly the supplied fields, each bound to its new value |
| Quizzes.QuestionUpdateSql | app/domain/quizzes/repositories.py:254-269 | the statement always sets `updated_at`, then assigns exactly the supplied fields in the order question, answer, explanation |
| Chat.ConversationOf | app/domain/chat/repositories.py:264-273 | the conversation copies the row's columns (id, type, name, description, created and updated times), with `require_member_approval` true exactly when the stored value is 1 |
| Chat.ConversationUpdate | app/domain/chat/repositories.py:276-296 | the conversation update fails exactly when neither field is supplied |
| Chat.ConversationUpdateSql | app/domain/chat/repositories.py:285-296 | a successful update assigns `name` and then `description`, each only when supplied, comma-separated |
| Chat.ConversationUpdateParams | app/domain/chat/repositories.py:286-294 | a successful update binds `conversation_id` plus exactly the supplied fields, each to its value |
| Chat.MessageOf | app/domain/chat/repositories.py:401-421 | the message takes its columns from the first row, with one attachment per row when the first row has an attachment and none otherwise |
| Chat.Get | app/domain/chat/repositories.py:390-421 | no message for no rows or for a message of another conversation; otherwise the message the rows describe, in the asked conversation |
| Chat.SelectQuery | app/domain/chat/repositories.py:434-461 | `around` takes precedence over `before`, and `before` over `after`; with no cursor the query is "before now" |
| Chat.ListSpec | app/domain/chat/repositories.py:434-496 | the contract of `Chat.List`: message `list` returns one message per distinct message id, in first-occurrence row order, each built from exactly its own rows |
| Recurrence.DayCodes | app/domain/tasks/repositories.py:235 | `d[:2].upper()` gives SU, MO, TU, WE, TH, FR, SA |
| Recurrence.DayOfCode | app/domain/tasks/repositories.py:158-167 | reading a two-letter code back gives a day whose code it is |
| Recurrence.DayCodeRoundTrip | app/domain/tasks/repositories.py:158-167 | reading back a day's code gives the day: the weekday table and the code are inverse |
| Recurrence.Relative | app/domain/tasks/repositories.py:239-245 | week-of-month numbers are 1 to 4 and -1 |
| Recurrence.WeekOfMonthOf | app/domain/tasks/repositories.py:189-195 | the reverse table is defined exactly on 1 to 4 and -1 |
| Recurrence.WeekOfMonthTables | app/domain/tasks/repositories.py:189-195 | the writer's table and the reader's table are inverse |
| Recurrence.DaysOf | app/domain/tasks/repositories.py:155-169 | the weekly days are read one per BYDAY entry, in order, by looking up the entry's text as written; the read fails exactly when some entry's text is not a bare day code (an ordinal, even a bare sign or a zero, makes it fail), naming such an entry |
| Recurrence.SignedWeeklyDayFails | app/domain/tasks/repositories.py:155-169 | `BYDAY=+MO` and `BYDAY=0MO` carry no ordinal once split, yet a weekly rule with either fails to read, because the lookup uses the text as written |
| Recurrence.PatternOf | app/domain/tasks/repositories.py:152-211 | the pattern follows FREQ: daily; weekly with the days read from BYDAY, failing exactly when that read fails; monthly relative when BYDAY is present, succeeding exactly when its first entry has a known day code and a known week-of-month ordinal; monthly absolute from BYMONTHDAY otherwise; yearly; an unknown FREQ fails; the interval is carried over |
| Recurrence.RangeOf | app/domain/tasks/repositories.py:213-220 | COUNT takes precedence over UNTIL; no range exactly when neither is present |
| Recurrence.FromIcal | app/domain/tasks/repositories.py:147-222 | reading fails without FREQ; the interval defaults to 1; the range follows COUNT/UNTIL |
| Recurrence.ToIcal | app/domain/tasks/repositories.py:225-261 | writing sets one FREQ per pattern kind and the interval, BYDAY only for weekly and monthly-relative patterns, BYMONTHDAY exactly for monthly-absolute ones, and COUNT or UNTIL per range |
| Recurrence.PatternRoundTrip | app/domain/tasks/repositories.py:152-261 | reading the fields written for a pattern gives the pattern back, whatever range is written alongside |
| Recurrence.FromToIcal | app/domain/tasks/repositories.py:147-261 | `_recurrence_from_ical` inverts `_recurrence_to_ical` on every recurrence |
| Tasks.TaskColumnsSelected | app/domain/tasks/repositories.py:319-357 | the seven blocks select exactly the supplied fields in the order title, notes, completed, recurrence, repeat_from, due_at, completed_at |
| Tasks.TaskUpdate | app/domain/tasks/repositories.py:314-363 | the task update fails with "no updates given" exactly when no field is supplied |
| Tasks.TaskUpdateSql | app/domain/tasks/repositories.py:316-363 | a successful update assigns exactly the supplied fields, comma-separated in block order |
| Tasks.TaskUpdateParams | app/domain/tasks/repositories.py:316-357 | a successful update binds `id` plus exactly the supplied fields |
| Tasks.TaskUpdateValues | app/domain/tasks/repositories.py:319-357 | each supplied field is bound to its converted value: the RRULE for a recurrence, the UTC instant for a date, NULL for None |
| Tasks.MapTaskRow | app/domain/tasks/repositories.py:263-282 | the task copies the row, with `completed` true exactly for a stored 1; the recurrence is read only from text, and a reading error propagates |
| Tasks.StoredTaskReadsBack | app/domain/tasks/repositories.py:263-357 | a `completed` flag and a recurrence written by `update` read back unchanged through `_map_task_row`, given that the RRULE text parses back to the RRULE |

## Left out

- SQL execution, SQLite connections, transactions (`autocommit`, `no_tx`), the `execution_time` update and `installed_on` are left out. They are I/O: the table is a map, and running a script is the `exec` parameter.
- SHA-384 and UTF-8 decoding are the `digest` and `decode` fields of a `FileOracle`. They are not computed.
- The clock is left out. The `migrate add` stamp (`strftime("%Y%m%d%H%M%S")`) is a parameter: any 14-digit string. The "now" of the message list is a parameter too.
- Console output (`rich.print`) is an event list in the outcome, not text. Process exit codes are error values.
- The database path options, `configure_connection`, `ensure_migrations_table`, and the `database create/drop/reset/setup` commands are left out. They carry no decision logic beyond I/O.
- A failing `mkdir` or `write_text` in `migrate add` is left out: file-system errors are I/O.
- The pool's connection factory, the pool itself, and the provider functions' bodies (aiosqlite) are left out. A provider is modelled by the app-state key it reads.
- The aiosqlite query files (`queries.*`) are left out. Each repository method's input is the rows its query returns, and its output is the statement it builds.
- `icalendar`'s text format (`vRecur.from_ical` / `to_ical`) is left out. The model works on the parsed RRULE dictionary, and `Tasks.MapTaskRow` takes the text parser as a parameter. `Tasks.StoredTaskReadsBack` assumes that text parses back to the RRULE written (`Recurrence.FromToIcal` is stated on the dictionary and needs no such assumption). That fails for a weekly pattern with no days: it is written as `BYDAY=` with an empty value, which `icalendar` does not read back.
- Date-times are integers. `astimezone(UTC).isoformat()` is the `UtcIso` value constructor rather than a text conversion.
- `Quizzes.InsertMany`: each `insert` is an oracle applied to (position, quiz id, input). The database state it threads is not modelled.
- MigrationFile.DigitRun: it reads ASCII digits only. Python's `\d` and `int()` also accept other Unicode decimal digits, so a file such as `١_x.sql` (Arabic-Indic one) parses there with version 1 and is not a migration here.
- Runner.RunSteps: versions are unbounded integers. SQLite stores 64-bit integers, so a version of 2^63 or more makes the insert raise `OverflowError` at app/server/plugins.py:456, which the `except sqlite3.Error` at line 468 does not catch: the command crashes instead of reporting the failure.
- The order in which `glob` lists files is taken as given: it is the order of the directory's entries.
- The shapes of some records follow what the repositories build, not the schema files:
  - the task pattern structs in `app/domain/tasks/schemas.py` have no `interval`, though the repository passes one;
  - `MessageAttachment` requires `created_at` and `url`, which the message repository never passes;
  - the chat `Conversation` model has no `require_member_approval`, which the repository passes.

  msgspec structs reject an unexpected keyword and a missing required field. So, in the program as it stands, mapping a conversation row, mapping a message with attachments, and reading any stored recurrence would raise `TypeError`, and writing a recurrence would raise `AttributeError` at `recur.pattern.interval`. The model builds the records the repositories evidently mean to build.
- Resolver.ParseAll: its contract is held in the lemmas `ParseAllValues`, `ParseAllSucceeds` and `ParseAllFirstError` rather than in ensures clauses.
- PoolConfig.Install: its ensures state only the lifespans. The dependencies it installs are stated by `InstallKeys`, `InstallKeepsOthers` and `InstallProviders`.
- Revert.RevertIntended: its ensures state the pre-checks and the target refusal. What the loop deletes is stated by `RevertSteps`, `RevertWithoutTarget` and `RevertToTargetRemovesAbove`.

## Findings

| source | as written | input that shows it | evidently intended | confidence | as-written member | corrected member |
|---|---|---|---|---|---|---|
| app/server/plugins.py:564-587 | `migrate revert --target-version T` refuses `T` below the latest applied version, and then skips every applied version `<= T`. Every applied version is then at or below `T`, so nothing is ever reverted | versions 1 and 2 applied, both with `down` files; `migrate revert --target-version 1` is refused, and `--target-version 2` skips both and deletes nothing | refuse a target above the latest applied version, then undo every applied version above the target that has a `down` file, newest first | high (by reading the guard and the skip; not executed) | Revert.RevertWithTargetChangesNothing | Revert.RevertToTargetRemovesAbove |
