# tim: the reliability core, modelled in Dafny

`tim` is a terminal chat server. Users reach it over telnet. Every session runs a
small Tcl shell, and the sessions talk to each other through an MQTT broker. Users
and their settings live in an SQLite database. This project models the layer that
keeps messaging and persistence reliable, as pure functions over immutable state,
and proves properties of that layer.

- **The database connection** (`SqliteDb`). This covers the busy-retry loop of
  `exec`, the reentrant transaction counter of `begin`/`commit`/`rollback`, and
  the savepoint variants that bypass the counter. It also covers
  `transaction(sql)`, `set_version`, the `open` guard, and the copy loop of
  `backup`.
- **The schema version** (`SqliteVersion`). This is the read of the big-endian
  `user_version` field at byte offset 60 of the database header, before the file
  is opened. Section 1.3 of the SQLite database file format document describes
  that field. The module also covers the read of the same value through
  `PRAGMA user_version`.
- **The prepared query** (`SqliteQuery`). This covers the prepare and step retry
  loops, with the immediate failure on MISUSE, and `exec` as a step. It also
  covers positional and named binding, the JSON-tag binding rule, and the column
  accessors.
- **The MQTT client** (`MqttClient`). This covers the timer callback that pings
  or connects, and the event handler that keeps the handle and the `connected`
  flag and fires the `connected`/`disconnected` signals. It also covers filter
  normalisation (`+` becomes `*`) and the dispatch of each inbound message to
  every matching subscriber in registration order.
- **Topic matching** (`TopicMatch`). Mongoose's `mg_match` is idealised as a
  glob: `?` matches one character, `*` a run without `/`, and `#` any run. This is
  not the wildcard rule of section 4.7.1 of the MQTT Version 5.0 standard.
- **The Tcl commands** (`TclTerm`, `TclUser`): `clear`, `puts`, `palette256`,
  `setnick` and `seticon`. Each command is modelled as its error together with
  its effects on the terminal and the broker.
- **The user and prompt services** (`UserService`, `PromptService`). The user
  service subscribes and turns nick/icon messages into UPDATEs. The prompt service
  publishes a session's posts and shows other sessions' posts as coloured clouds.

Shared pieces live in their own modules:

- `Retry` holds the bounded retry loop.
- `Text` holds decimal numerals and `std::filesystem::path` joining and splitting.
- `Wrappers` holds `Option`.

The engine (`sqlite3_*`) is an input. For the calls the retry loops repeat
(`sqlite3_exec`, `sqlite3_prepare_v2`, `sqlite3_step`), `Retry.Answers` maps `k`
to the result code of the k-th such call, and each operation reports how many calls
it made. The other native calls enter differently:

- `sqlite3_bind_*` succeeds exactly on the parameter positions.
- `sqlite3_get_autocommit` is the connection's `active` field.
- `sqlite3_backup_step` answers with a sequence of codes.
- The column calls and the setup calls of `open` are parameters.
`DB_BUSY_TRIES` is a parameter. A `TIM_TRACE(Error, …)` return is a `false`
result, and a `TIM_TRACE(Fatal, …)` is a halt: `Halt` or `Halted`.

## Model

| member | source | states |
|---|---|---|
| Retry.Run | src/db/sqlite/tim_sqlite_db.cpp:247-265 | The loop makes at most `budget` attempts, and every attempt but the last was retried. It succeeds exactly when the last answer is accepted. It stops early only on a decisive answer, and no budget means no attempt and failure. |
| Retry.Loop | src/db/sqlite/tim_sqlite_db.cpp:247-265 | The same facts for the loop from a given iteration on. |
| Retry.BusyThenAccepted | src/db/sqlite/tim_sqlite_db.cpp:247-265 | Busy answers followed by an accepted one within the budget succeed after exactly that many attempts. |
| Retry.BusyThroughout | src/db/sqlite/tim_sqlite_db.cpp:247-265 | When every attempt is busy, the loop spends the whole budget and fails. |
| Retry.LoopAfterBusy | src/db/sqlite/tim_sqlite_db.cpp:247-265 | The loop started mid-way also stops at the first accepted answer after busy ones. |
| Retry.StatementVerdict | src/db/sqlite/tim_sqlite_db.cpp:248-264 | Helper: for `sqlite3_exec` and `sqlite3_prepare_v2`, OK is accepted, BUSY is retried, and every other code fails. |
| Retry.StepVerdict | src/db/sqlite/tim_sqlite_query.cpp:284-316 | Helper: for `sqlite3_step`, ROW and DONE are accepted, BUSY is retried, and every other code (MISUSE included) fails. |
| Retry.ShiftAllOk | src/db/sqlite/tim_sqlite_db.cpp:247-251 | Helper for the all-OK lemmas: an engine that always answers OK still does so after any number of calls. |
| SqliteDb.Exec | src/db/sqlite/tim_sqlite_db.cpp:235-275 | `exec` returns true on the first OK and retries only on BUSY, within the try budget. Any other code fails at once, and a spent budget fails. The statement is issued once and the connection is unchanged. |
| SqliteDb.ExecAllOk | src/db/sqlite/tim_sqlite_db.cpp:247-251 | Against an engine that always answers OK, `exec` succeeds on its first call. |
| SqliteDb.UserVersionTextCarriesVersion | src/db/sqlite/tim_sqlite_db.cpp:207-210 | The statement `set_version` sends is the pragma prefix followed by a decimal numeral that parses back to the version. |
| SqliteDb.SetVersion | src/db/sqlite/tim_sqlite_db.cpp:207-210 | `set_version` issues exactly the user_version pragma for that version and succeeds iff its `exec` does. |
| SqliteDb.Begin | src/db/sqlite/tim_sqlite_db.cpp:298-310 | Outside a transaction, `begin` issues one BEGIN, and on success the counter becomes 1. Inside one, it issues nothing and only increments the counter. A failure changes nothing. |
| SqliteDb.Commit | src/db/sqlite/tim_sqlite_db.cpp:324-340 | With the counter below 1 or no transaction, `commit` fails, issues nothing and changes nothing. COMMIT is issued only at depth 1, and on success the counter drops to 0. A failed COMMIT leaves the counter alone. Deeper, `commit` only decrements. |
| SqliteDb.Rollback | src/db/sqlite/tim_sqlite_db.cpp:349-360 | ROLLBACK is issued only inside a transaction. Any success leaves the counter at 0 whatever its depth, and a failed ROLLBACK leaves the counter alone. |
| SqliteDb.BracketCalls | src/db/sqlite/tim_sqlite_db.cpp:298-360 | `begin`, `commit` and `rollback` consume exactly the engine answers of the one statement each issues, and none when they issue nothing. |
| SqliteDb.BeginSavepoint | src/db/sqlite/tim_sqlite_db.cpp:312-317 | Issues exactly one SAVEPOINT and never touches the counter. It succeeds iff that `exec` does. |
| SqliteDb.CommitSavepoint | src/db/sqlite/tim_sqlite_db.cpp:342-347 | Issues exactly one RELEASE SAVEPOINT, leaves the connection alone, and succeeds iff that `exec` does. |
| SqliteDb.RollbackSavepoint | src/db/sqlite/tim_sqlite_db.cpp:362-367 | Issues exactly one ROLLBACK TRANSACTION TO SAVEPOINT, leaves the connection alone, and succeeds iff that `exec` does. |
| SqliteDb.SavepointInsideTransaction | src/db/sqlite/tim_sqlite_db.cpp:312-367 | A savepoint opened and then released or rolled back inside an active transaction leaves the connection unchanged, so the enclosing `commit()` and `rollback()` behave exactly as without it. |
| SqliteDb.SavepointBracketed | src/db/sqlite/tim_sqlite_db.cpp:298-347 | Against an always-OK engine, `begin()`, a savepoint, its release and `commit()` issue exactly BEGIN, SAVEPOINT, RELEASE and COMMIT, and end outside the transaction at counter 0. |
| SqliteDb.TransactionAsWritten | src/db/sqlite/tim_sqlite_db.cpp:286-296 | The as-written `transaction` keeps the connection open. |
| SqliteDb.TransactionAsWrittenHidesFailure | src/db/sqlite/tim_sqlite_db.cpp:293-295 | A rejected statement followed by a successful ROLLBACK makes the as-written `transaction` return true. |
| SqliteDb.Transaction | src/db/sqlite/tim_sqlite_db.cpp:286-296 | A failed `begin` is returned as is, without running `sql`. After a successful `begin`, a failed statement issues exactly the statement and ROLLBACK and reports failure. Success implies that both `begin` and the statement succeeded. Started outside a transaction, a successful run issues BEGIN, the statement and COMMIT, and ends outside the transaction at counter 0. Outside a transaction, once `begin` and the statement succeed, exactly BEGIN, the statement and COMMIT are issued. The result is then the result of that COMMIT, read from the answers after the statement's, and a failed COMMIT leaves the connection as `begin` left it. Inside a transaction of depth at least 1, a successful statement issues only itself, succeeds, and leaves the connection as it was. |
| SqliteDb.TransactionCorrectionIsMinimal | src/db/sqlite/tim_sqlite_db.cpp:286-296 | The corrected and as-written `transaction` issue the same statements and leave the same connection. They differ only in reporting failure after a rollback. |
| SqliteDb.TransactionAllOk | src/db/sqlite/tim_sqlite_db.cpp:286-296 | Against an always-OK engine, `transaction(sql)` succeeds and equals the reference `begin()` then `commit()` around `sql`: the same final connection, and `sql` issued between their statements. |
| SqliteDb.ApplyAllOk | src/db/sqlite/tim_sqlite_db.cpp:298-360 | Against an always-OK engine, each of `begin`/`commit`/`rollback` behaves as the independent answer-free definition `ApplyOk` says. |
| SqliteDb.RunOpsAllOk | src/db/sqlite/tim_sqlite_db.cpp:298-360 | Against an always-OK engine, a whole sequence of those calls runs as the answer-free reference `RunOpsOk` says. |
| SqliteDb.RunOpsOkAppend | src/db/sqlite/tim_sqlite_db.cpp:298-360 | The reference run of two call sequences back to back is the first run followed by the second, from the state the first left. |
| SqliteDb.RunOpsAppend | src/db/sqlite/tim_sqlite_db.cpp:298-360 | The same holds for the modelled calls against any always-OK engine. |
| SqliteDb.NestedBegins | src/db/sqlite/tim_sqlite_db.cpp:306-307 | Inside a transaction, n more `begin` calls issue nothing and raise the counter by n. |
| SqliteDb.NestedCommits | src/db/sqlite/tim_sqlite_db.cpp:333-337 | Above depth 1, n `commit` calls issue nothing and lower the counter by n. |
| SqliteDb.BalancedNesting | src/db/sqlite/tim_sqlite_db.cpp:298-340 | n `begin` calls then n `commit` calls, from outside a transaction, issue exactly one BEGIN and one COMMIT and end at counter 0 with no transaction. |
| SqliteDb.RollbackFlattens | src/db/sqlite/tim_sqlite_db.cpp:349-360 | However deep the nesting, one `rollback` ends the transaction with the counter at 0. The whole run issues one BEGIN and one ROLLBACK. |
| SqliteDb.Open | src/db/sqlite/tim_sqlite_db.cpp:45-91 | `open` fails without a handle when the folder cannot be made or any of the three native set-up calls fails. Otherwise it runs the start-up pragmas and returns their result, keeping the handle even when they fail. |
| SqliteDb.Replicate | src/db/sqlite/tim_sqlite_db.cpp:509-547 | A failed init fails. Otherwise the loop steps while the answer is OK, BUSY or LOCKED, and stops at the first other code. Each step reports progress when a callback is given, and each BUSY or LOCKED pauses. The result is the result of finishing. The loop computes exactly the loop-free reference `ReplicationOf`. |
| SqliteDb.FirstStop | src/db/sqlite/tim_sqlite_db.cpp:525-537 | Helper for the reference: the position of the first step code that ends the loop, with every earlier code continuing. `None` when every code continues. |
| SqliteDb.ReplicationOf | src/db/sqlite/tim_sqlite_db.cpp:509-547 | Reference for the copy loop: it fails exactly when init fails. Otherwise it finishes right after the first stopping code, or is still copying when every code continues. |
| SqliteDb.ContinueThenStop | src/db/sqlite/tim_sqlite_db.cpp:525-537 | k continuing step codes followed by a stopping one finish the copy after exactly k + 1 steps, with k + 1 reports when reporting, whatever codes follow. |
| SqliteDb.Copied | src/db/sqlite/tim_sqlite_db.cpp:420 | Helper: `replicate` returns true exactly when the copy finished and the finish answered OK. |
| SqliteDb.BackupAsWritten | src/db/sqlite/tim_sqlite_db.cpp:386-426 | Backup succeeds iff the folder is ready, the destination opens and `replicate` finishes with OK. The destination stays open exactly when it opened and the copy did not succeed. |
| SqliteDb.BackupAsWrittenLeaksOnFailedCopy | src/db/sqlite/tim_sqlite_db.cpp:420-423 | A copy loop that stops and then fails to finish returns before the destination connection is closed. |
| SqliteDb.Backup | src/db/sqlite/tim_sqlite_db.cpp:386-426 | The corrected backup has the as-written result and closes the destination on every path. |
| SqliteDb.BackupOfReplication | src/db/sqlite/tim_sqlite_db.cpp:386-426 | Over the copy loop, backup succeeds iff the folder is ready, the destination opens, the backup initialises, some step answer stops the loop and the finish answers OK. |
| SqliteVersion.BytesThenBigEndian | src/db/sqlite/tim_sqlite_db.cpp:183-185 | Encoding a value below 256^n in n big-endian bytes and decoding gives the value back. |
| SqliteVersion.BigEndianThenBytes | src/db/sqlite/tim_sqlite_db.cpp:183-185 | Decoding bytes and re-encoding them at the same width gives the bytes back. |
| SqliteVersion.BigEndianBound | src/db/sqlite/tim_sqlite_db.cpp:183-185 | An n-byte big-endian value is below 256^n. |
| SqliteVersion.ReadVersion | src/db/sqlite/tim_sqlite_db.cpp:168-193 | A version is read iff the file starts with the 16-byte signature and has 4 bytes at offset 60. The version fits in 32 bits and its big-endian bytes are exactly bytes 60 to 63. |
| SqliteVersion.WriteVersion | src/db/sqlite/tim_sqlite_db.cpp:177-178 | Writing a version changes only bytes 60 to 63 of the header. |
| SqliteVersion.WriteThenRead | src/db/sqlite/tim_sqlite_db.cpp:168-193 | A written version reads back unchanged. |
| SqliteVersion.ColumnInt | src/db/sqlite/tim_sqlite_query.cpp:349-354 | `to_int` keeps the low 32 bits of the column as a signed value. |
| SqliteVersion.ToUint32 | src/db/sqlite/tim_sqlite_db.cpp:201-203 | Assigning the `int` to the `uint32_t` version reduces it modulo 2^32. |
| SqliteVersion.Signed32 | src/db/sqlite/tim_sqlite_db.cpp:201-203 | Every 32-bit unsigned version is the conversion of some `int`. |
| SqliteVersion.HasHeader | src/db/sqlite/tim_sqlite_db.cpp:174-178 | Helper: a file with a readable header is at least 64 bytes long and starts with the 16 signature bytes. |
| SqliteVersion.GetVersion | src/db/sqlite/tim_sqlite_db.cpp:195-205 | The pragma read gives a version exactly when both the prepare and the step of `PRAGMA user_version` succeed, each with its own busy-retry. Without data columns the version is 0. Otherwise it is the column's value modulo 2^32. |
| SqliteVersion.HeaderAgreesWithPragma | src/db/sqlite/tim_sqlite_db.cpp:168-205 | When the pragma returns the header's field as a row, both reads give the same version. |
| SqliteQuery.NewQuery | src/db/sqlite/tim_sqlite_query.cpp:17-23 | A new query holds its SQL, is not prepared, and has no bindings. |
| SqliteQuery.Prepare | src/db/sqlite/tim_sqlite_query.cpp:40-81 | Needs an unprepared query. It becomes prepared only on OK, retries only BUSY within the budget, and any other code fails at once. |
| SqliteQuery.Next | src/db/sqlite/tim_sqlite_query.cpp:278-326 | ROW succeeds with `done` false and DONE succeeds with `done` true. MISUSE on the first call fails after that one call. BUSY is retried within the budget, other codes fail at once, and `done` is untouched on failure. |
| SqliteQuery.Exec | src/db/sqlite/tim_sqlite_query.cpp:273-276 | `exec` has the result and call count of `next`, whatever `done` held. |
| SqliteQuery.Bind | src/db/sqlite/tim_sqlite_query.cpp:88-102 | A bind succeeds iff the index is a parameter position from 1 to the count. It records the value there, and a rejected bind leaves the query unchanged. |
| SqliteQuery.BindBool | src/db/sqlite/tim_sqlite_query.cpp:83-86 | A boolean binds as the integer 1 or 0. |
| SqliteQuery.ParameterIndex | src/db/sqlite/tim_sqlite_query.cpp:203-208 | A name resolves to 0 iff no parameter has it. Otherwise it resolves to the 1-based position of its first occurrence. |
| SqliteQuery.BindNamed | src/db/sqlite/tim_sqlite_query.cpp:243-248 | A named bind succeeds iff the name is a parameter, and binds at its position. An unknown name binds nothing. |
| SqliteQuery.WrapInt64 | src/db/sqlite/tim_sqlite_query.cpp:185-186 | The `(int64_t)` cast of an unsigned value is congruent to it modulo 2^64. |
| SqliteQuery.JsonValue | src/db/sqlite/tim_sqlite_query.cpp:178-201 | A signed integer binds as int64, and an unsigned one as its int64 cast, negative from 2^63 up. A float binds as a double, and a boolean as the text "true"/"false". Null, strings and compound values bind as their serialised text. |
| SqliteQuery.BindJson | src/db/sqlite/tim_sqlite_query.cpp:178-201 | A JSON bind records exactly the value the tag dispatch picks, at a valid index. |
| SqliteQuery.Escape | src/db/sqlite/tim_sqlite_query.cpp:196-197 | Helper: escaping never shortens a string. `SqliteQuery.EscapeRoundTrip` states that it reads back. |
| SqliteQuery.Dump | src/db/sqlite/tim_sqlite_query.cpp:196-197 | Helper: `value.dump()` of a string is the escaped text between two quotes, at least two characters longer than the string. |
| SqliteQuery.EscapeRoundTrip | src/db/sqlite/tim_sqlite_query.cpp:196-197 | The string escaping used by the serialiser reads back to the original string. |
| SqliteQuery.EscapeCharReadsBack | src/db/sqlite/tim_sqlite_query.cpp:196-197 | One escaped character reads back to itself, whatever follows it. |
| SqliteQuery.JsonStringBindsQuoted | src/db/sqlite/tim_sqlite_query.cpp:196-197 | A JSON string binds as its quoted form, never as the bare text. Unquoting and unescaping gives the string back. |
| SqliteQuery.BoolBindingsDiffer | src/db/sqlite/tim_sqlite_query.cpp:83-86 | `bind(bool)` stores an integer where `bind(json)` of a boolean stores text. |
| SqliteQuery.ClampCount | src/db/sqlite/tim_sqlite_query.cpp:328-340 | Column counts are the engine's count when non-negative, and 0 otherwise. |
| SqliteQuery.ClampCountLeast | src/db/sqlite/tim_sqlite_query.cpp:328-340 | The clamped count is `std::max(0, n)`: it is not below `n` and not above any natural number that is. |
| SqliteQuery.CString | src/db/sqlite/tim_sqlite_query.cpp:374-377 | Reading text as a C string gives the longest NUL-free prefix. |
| SqliteQuery.ToString | src/db/sqlite/tim_sqlite_query.cpp:370-378 | A NULL column reads as the empty string. Text reads up to its first NUL and is unchanged without one. |
| SqliteQuery.ToJson | src/db/sqlite/tim_sqlite_query.cpp:380-390 | `ok` is set iff the column's text parses, and the result is the parsed value. On failure it is JSON null. |
| TopicMatch.Match | src/mqtt/tim_mqtt_client.cpp:166-168 | Helper: the glob `mg_match` is idealised as. It carries no contract of its own; the lemmas below state what it matches. |
| TopicMatch.LiteralMatchesItself | src/mqtt/tim_mqtt_client.cpp:166-168 | Against a filter without wildcards, only the filter itself matches. |
| TopicMatch.LiteralPrefix | src/mqtt/tim_mqtt_client.cpp:166-168 | A literal head of the filter consumes the same head of the topic. |
| TopicMatch.StarMatches | src/mqtt/tim_mqtt_client.cpp:166-168 | `*` matches exactly the strings without `/`. |
| TopicMatch.HashMatches | src/mqtt/tim_mqtt_client.cpp:166-168 | `#` matches every string. |
| TopicMatch.PrefixStar | src/mqtt/tim_mqtt_client.cpp:166-168 | "p*" with a literal p matches exactly the topics that start with p and have no `/` after it. |
| TopicMatch.PrefixHash | src/mqtt/tim_mqtt_client.cpp:166-168 | "p#" with a literal p matches exactly the topics that start with p. |
| TopicMatch.ParentNotMatched | src/mqtt/tim_mqtt_client.cpp:166-168 | "a/#" does not match "a" but matches "a/". |
| MqttClient.NewClient | src/mqtt/tim_mqtt_client.cpp:19-34 | A new client has no handle, is not connected, and has no subscribers. |
| MqttClient.IsConnected | src/mqtt/tim_mqtt_client.cpp:38-41 | `is_connected` is the stored flag. |
| MqttClient.Options | src/mqtt/tim_mqtt_client.cpp:209-218 | The connect options are protocol 5, keepalive 0, a clean session and QoS 1. The will is "disconnected" on "client/status", and the client id is the application name. |
| MqttClient.Tick | src/mqtt/tim_mqtt_client.cpp:198-226 | With a handle, the timer only pings and changes nothing. Without one, it connects with those options and keeps the new handle, and a failed connect halts. |
| MqttClient.Normalise | src/mqtt/tim_mqtt_client.cpp:77-80 | Normalisation replaces every `+` by `*` and keeps every other character in place. |
| MqttClient.NormaliseIdempotent | src/mqtt/tim_mqtt_client.cpp:77-80 | Normalising twice is normalising once, and a filter without `+` is kept. |
| MqttClient.Subscribe | src/mqtt/tim_mqtt_client.cpp:72-93 | `subscribe` appends exactly one entry holding the normalised filter, at the end. It sends the original filter on the wire and changes nothing else. |
| MqttClient.Publish | src/mqtt/tim_mqtt_client.cpp:43-70 | `publish` sends one message with the given topic, payload, QoS and retain flag, and changes no state. |
| MqttClient.Dispatch | src/mqtt/tim_mqtt_client.cpp:166-168 | A message is delivered to handler h iff some registered entry of h matches the topic. Every delivery carries the topic and payload unchanged. |
| MqttClient.DispatchAppend | src/mqtt/tim_mqtt_client.cpp:166-168 | Deliveries follow registration order: the deliveries for a + b are those for a, then those for b. |
| MqttClient.DispatchOne | src/mqtt/tim_mqtt_client.cpp:166-168 | One entry delivers once iff its filter matches. |
| MqttClient.HandleEvent | src/mqtt/tim_mqtt_client.cpp:98-196 | MQTT_OPEN connects and fires `connected` once. CLOSE clears the handle, disconnects and fires `disconnected`. ERROR marks the connection draining, disconnects and fires `disconnected`, but keeps the handle. PINGREQ is answered with a pong, and a message is dispatched unless the connection is draining. A plain OPEN changes nothing and has no effect. |
| MqttClient.HandleAll | src/mqtt/tim_mqtt_client.cpp:98-196 | No event changes the subscriber registry. |
| MqttClient.ErrorThenCloseDisconnectsTwice | src/mqtt/tim_mqtt_client.cpp:172-194 | An ERROR followed by the CLOSE of the same connection fires `disconnected` twice. Only the CLOSE drops the handle. |
| MqttClient.ReconnectOnlyAfterClose | src/mqtt/tim_mqtt_client.cpp:203-220 | After ERROR the timer keeps pinging the old handle, and only after CLOSE does it connect again. |
| MqttClient.DuplicateSubscriptionDeliversTwice | src/mqtt/tim_mqtt_client.cpp:82 | Subscribing the same filter and handler twice delivers each matching message to it twice. |
| TclTerm.Clear | src/script/tcl/cmd/tim_tcl_cmd_term.cpp:18-36 | `clear` clears the screen iff it has no arguments. Otherwise it sets an error and does nothing. |
| TclTerm.NickTopic | src/script/tcl/cmd/tim_tcl_cmd_term.cpp:57-61 | Helper: a nick topic is "setNick/" followed by the terminal id. |
| TclTerm.IconTopic | src/script/tcl/cmd/tim_tcl_cmd_term.cpp:73-77 | Helper: an icon topic is "setIcon/" followed by the terminal id. |
| TclTerm.Route | src/script/tcl/cmd/tim_tcl_cmd_term.cpp:47-114 | With echo, "nick:x" writes "[setNick] x" and a newline and then publishes x to "setNick/<terminal>". With echo, "icon:x" writes "[setIcon] <image data>" and a newline and then publishes x to "setIcon/<terminal>". Without echo, those texts only publish. Other text is written, with a newline when echoing, and publishes nothing. |
| TclTerm.Puts | src/script/tcl/cmd/tim_tcl_cmd_term.cpp:38-124 | One argument routes with echo. Two arguments need "-nonewline" first and route the second without echo. Any other count is a usage error, and a refused call has no effect. |
| TclTerm.NoNewlinePublishesTheSame | src/script/tcl/cmd/tim_tcl_cmd_term.cpp:82-113 | "-nonewline" never changes what is published, and plain text loses exactly its trailing newline. |
| TclTerm.Published | src/script/tcl/cmd/tim_tcl_cmd_term.cpp:57-61 | The published messages among some effects are publish effects taken from them. |
| TclTerm.PublishedAppend | src/script/tcl/cmd/tim_tcl_cmd_term.cpp:52-61 | Published messages and written text of consecutive effects concatenate. |
| TclTerm.PositionStep | src/script/tcl/cmd/tim_tcl_cmd_term.cpp:143-151 | Layout helper: each colour's items start three places after the previous colour's, one more after a line break. |
| TclTerm.PositionMonotone | src/script/tcl/cmd/tim_tcl_cmd_term.cpp:143-151 | Layout helper: later colours' items start later. |
| TclTerm.PaletteLayout | src/script/tcl/cmd/tim_tcl_cmd_term.cpp:141-152 | The palette shows every colour from 0 to the count inclusive, in order, as index, swatch and space. A newline stands just before each nonzero multiple of ten and nowhere else. |
| TclTerm.Palette256 | src/script/tcl/cmd/tim_tcl_cmd_term.cpp:126-155 | `palette256` refuses any argument. Otherwise its loop produces exactly the palette of colours 0 to the count. |
| TclUser.SetNickTopic | src/script/tcl/cmd/tim_tcl_cmd_user.cpp:34-35 | Helper: for a relative, non-empty user id the topic is "user/setnick/" followed by the id. |
| TclUser.SetIconTopic | src/script/tcl/cmd/tim_tcl_cmd_user.cpp:58-59 | Helper: for a relative, non-empty user id the topic is "user/seticon/" followed by the id. |
| TclUser.SetNick | src/script/tcl/cmd/tim_tcl_cmd_user.cpp:16-38 | `setnick` succeeds iff it has exactly one argument, and publishes that argument verbatim to "user/setnick/<user id>". Any other count sets an error and publishes nothing. |
| TclUser.SetIcon | src/script/tcl/cmd/tim_tcl_cmd_user.cpp:40-62 | `seticon` succeeds iff it has exactly one argument, and publishes it verbatim to "user/seticon/<user id>". Any other count sets an error and publishes nothing. |
| TclUser.SetNickTopicSplits | src/script/tcl/cmd/tim_tcl_cmd_user.cpp:34-35 | The topic splits back into "user/setnick" (or "user/seticon") and the user id. |
| Text.Join | src/script/tcl/cmd/tim_tcl_cmd_user.cpp:34-35 | Path `/`: an absolute leaf replaces the base, and otherwise the leaf follows the base after one separator. |
| Text.SplitPath | src/srv/user/tim_user_service.cpp:46-49 | A path with a separator is its parent, a separator and its file name, and the file name holds no separator. |
| Text.JoinSplits | src/srv/prompt/tim_prompt_service.cpp:26 | Joining a separator-free leaf to a base gives back that base as parent and that leaf as file name. |
| Text.DecimalRoundTrip | src/srv/prompt/tim_prompt_service.cpp:26 | The decimal numeral of a service id parses back to the id. |
| UserService.SubscribeAll | src/srv/user/tim_user_service.cpp:31-42 | Subscribing the filters appends one entry per filter, in order, each with its normalised filter and the same handler. It sends each original filter, in the same order, to the current handle. |
| UserService.Start | src/srv/user/tim_user_service.cpp:16-24 | At construction the service registers the as-written filters, exactly as a `connected` signal would, and only if the client is already connected. |
| UserService.OnConnected | src/srv/user/tim_user_service.cpp:31-42 | Every `connected` signal sends "set_nick/+" and "set_icon/+" and appends their stored forms with the star to the registry, in that order. Nothing else about the client changes. |
| UserService.OnConnectedCorrected | src/srv/user/tim_user_service.cpp:31-42 | The corrected registration sends "setNick/+" and "setIcon/+" and appends their stored forms with the star, in that order. |
| UserService.Decode | src/srv/user/tim_user_service.cpp:44-52 | The command is the parent's last element, and the id is the topic's last element. A nick or icon change is decoded exactly for "setNick" or "setIcon", with the payload as value. |
| UserService.OnChange | src/srv/user/tim_user_service.cpp:44-94 | Other commands are ignored. A known command binds the payload and the id to its own UPDATE; the third bind is rejected. It halts (the fatal trace) exactly when the busy-retried prepare of that UPDATE fails, whatever answers come first. Otherwise the statement is executed and the result is the result of that busy-retried step: OK then DONE succeeds, and OK then a non-busy error fails. |
| UserService.Command | src/srv/user/tim_user_service.cpp:49 | Helper: the command is one path element, so it holds no `/`, and a topic without `/` has an empty command. |
| UserService.CommandUnderPrefix | src/srv/user/tim_user_service.cpp:46-49 | "p/id" decodes to command p and id `id`. |
| UserService.StoredFilter | src/mqtt/tim_mqtt_client.cpp:77-82 | "p/+" is stored as "p/*". |
| UserService.StoredFilterAt | src/mqtt/tim_mqtt_client.cpp:77-82 | Helper: the stored form of the i-th filter "p/+" is "p/*". |
| UserService.StoredFiltersAsWritten | src/srv/user/tim_user_service.cpp:35-41 | The filters as written are stored as "set_nick/*" and "set_icon/*". |
| UserService.StoredFiltersCorrected | src/srv/user/tim_user_service.cpp:52-72 | The corrected filters are stored as "setNick/*" and "setIcon/*". |
| UserService.StarFilter | src/srv/user/tim_user_service.cpp:46-49 | A topic matches "p/*" iff it is p, a separator and one element, and such a topic decodes to command p. |
| UserService.StarFilterMisses | src/srv/user/tim_user_service.cpp:35-41 | A topic that differs from p within p's length does not match "p/*". |
| UserService.AsWrittenCommand | src/srv/user/tim_user_service.cpp:35-49 | A topic under "set_nick/+" decodes to command "set_nick", and one under "set_icon/+" to "set_icon". |
| UserService.UnknownCommandIgnored | src/srv/user/tim_user_service.cpp:52-94 | Any command but "setNick" and "setIcon" leaves the database alone. |
| UserService.AsWrittenFiltersNeverUpdate | src/srv/user/tim_user_service.cpp:35-72 | Every message delivered through the as-written filters is ignored. |
| UserService.KnownCommandUpdates | src/srv/user/tim_user_service.cpp:52-92 | A known command whose prepare succeeds becomes its UPDATE with the payload and the id bound. |
| UserService.NickTopicDecodes | src/script/tcl/cmd/tim_tcl_cmd_term.cpp:57-61 | The topic `puts nick:` publishes matches "setNick/*" and decodes to "setNick" and the terminal id. |
| UserService.IconTopicDecodes | src/script/tcl/cmd/tim_tcl_cmd_term.cpp:73-77 | The topic `puts icon:` publishes matches "setIcon/*" and decodes to "setIcon" and the terminal id. |
| UserService.NickTopicMissesAsWritten | src/srv/user/tim_user_service.cpp:35-41 | The topic `puts nick:` publishes matches neither as-written filter. |
| UserService.AsWrittenFiltersMissTerminalNick | src/srv/user/tim_user_service.cpp:35-41 | The stored as-written filters miss every terminal's nick topic. |
| UserService.AsWrittenRegistrationIgnoresAll | src/srv/user/tim_user_service.cpp:31-94 | Any message the as-written registration delivers to the service's handler leaves the database alone. |
| UserService.CorrectedRegistrationDeliversNickOnce | src/srv/user/tim_user_service.cpp:31-42 | With the corrected registration, the topic of `puts nick:` reaches the service's handler exactly once. |
| UserService.UserSetNickTopicIgnored | src/script/tcl/cmd/tim_tcl_cmd_user.cpp:34-35 | The topic `setnick` publishes to decodes to the command "setnick", which `on_change` ignores. |
| UserService.UserSetNickCommand | src/script/tcl/cmd/tim_tcl_cmd_user.cpp:34 | Helper: the last element of "user/setnick" is "setnick". |
| UserService.UserSetNickTopicMissesFilters | src/srv/user/tim_user_service.cpp:35-41 | The topic `setnick` publishes to lies under neither "set_nick/+" nor "setNick/+". |
| UserService.TerminalNickReachesDatabase | src/srv/user/tim_user_service.cpp:52-66 | With the corrected filters, `puts nick:v` reaches the service and becomes the nick UPDATE of v for that terminal. |
| UserService.TerminalIconReachesDatabase | src/srv/user/tim_user_service.cpp:72-87 | With the corrected filters, `puts icon:v` becomes the icon UPDATE of v for that terminal. |
| PromptService.OwnTopic | src/srv/prompt/tim_prompt_service.cpp:26 | The own topic is "post/" and the service id in decimal. It splits back into "post" and that numeral. |
| PromptService.PostFilterOfOwnTopic | src/srv/prompt/tim_prompt_service.cpp:53 | Every session subscribes to "post/+". |
| PromptService.PostFilter | src/srv/prompt/tim_prompt_service.cpp:53 | The post filter is never empty. |
| PromptService.OnPosted | src/srv/prompt/tim_prompt_service.cpp:32-37 | Posted text is published to the own topic while connected, and dropped otherwise. |
| PromptService.Subscribe | src/srv/prompt/tim_prompt_service.cpp:50-56 | `subscribe` publishes the user id on "user/connect" before it subscribes to the post filter, and registers that filter for the post handler. |
| PromptService.Start | src/srv/prompt/tim_prompt_service.cpp:39-42 | At construction the service subscribes only if the client is already connected. |
| PromptService.ColorIndex | src/srv/prompt/tim_prompt_service.cpp:73-74 | The colour is at least 1. With a count of at least 2, it is at most count - 1 and equals n % (count - 1) + 1 for numbers within `size_t`. |
| PromptService.EveryColourReached | src/srv/prompt/tim_prompt_service.cpp:73-74 | Every colour from 1 to count - 1 is the colour of some number. |
| PromptService.ModOfSmall | src/srv/prompt/tim_prompt_service.cpp:74 | Arithmetic helper: a number below the divisor is its own remainder. |
| PromptService.OnPost | src/srv/prompt/tim_prompt_service.cpp:67-77 | A post on the own topic shows nothing. Any other post shows one cloud with a newline before the text, coloured by the topic's last element, and then a new line. |
| PromptService.OnDataReady | src/srv/prompt/tim_prompt_service.cpp:58-65 | Empty input is ignored. Other input goes to the shell, and the session closes iff that write fails. |
| PromptService.PostUnderFilter | src/srv/prompt/tim_prompt_service.cpp:53 | Every session's post topic matches the stored post filter. |
| PromptService.OwnPostsComeBackIgnored | src/srv/prompt/tim_prompt_service.cpp:69 | A session hears its own posts back through its filter and shows nothing for them. |
| PromptService.OtherPostsShown | src/srv/prompt/tim_prompt_service.cpp:69-75 | Posts from another service id reach the session and are shown, coloured by that id. |

## Left out

- The SQLite engine is left out. Only the calls the retry loops repeat draw their codes from `Retry.Answers`, and the other native calls enter as described at the top. Sleeps between attempts have no effect beyond the attempt count and are not modelled.
- SqliteQuery.Bind: success depends only on the index range. The engine's other bind failures are not modelled: SQLITE_MISUSE for a bind after a step without a reset, SQLITE_TOOBIG and SQLITE_NOMEM. Neither is `dump()` throwing on invalid UTF-8 in `bind(json)`. The source checks these codes the same way as SQLITE_RANGE, so a model with them would only add failing paths.
- `DB_BUSY_TRIES` is a parameter, because its value is defined in a configuration header that is not part of this model.
- Filesystem work is not modelled: `complete_path`, `create_directories` and `std::ifstream`. Their outcomes are inputs: `folderReady`, and the bytes of the file.
- `flush`, `close`, `recreate`, `exec_file`, `vacuum` and `change_count` are left out. They are thin wrappers over the engine or the file system and are not among the reliability rules modelled here.
- The encryption functions and the trace/progress callbacks are left out; they are logging over foreign calls.
- Floating point is left out. `DoubleValue` keeps a `real`, and the narrowing of a JSON float to `float` before it is bound as a `double` is not modelled.
- `tim::from_string`, the JSON parser behind `to_json`, is a parameter of `SqliteQuery.ToJson`.
- SqliteQuery.JsonValue: the serialised text of compound values (arrays, objects) is taken as given. Only the escaping of strings is written out.
- Mongoose networking, TLS and timer registration are left out. TLS set-up appears only as an `InitTls` effect carrying the three file names. The application's TLS folder is a parameter.
- A publish or subscribe on a client without a handle goes to mongoose, whose behaviour is not visible. The effect carries `None` as its target.
- SqliteDb.TransactionAsWritten: its own contract says only that the connection stays open. Its behaviour is stated through `SqliteDb.TransactionAsWrittenHidesFailure` and `SqliteDb.TransactionCorrectionIsMinimal`, which relate it to the corrected `SqliteDb.Transaction`.
- SqliteDb.BackupAsWritten: a handle that `sqlite3_open_v2` may return even when it fails is not modelled. Only the leak after a failed copy is.
- SqliteDb.Open: a failed `open` has no handle. In `open_db`, a handle that `sqlite3_open_v2` returns together with an error code is never closed (src/db/sqlite/tim_sqlite_db.cpp:440-454), and that leak is not modelled.
- Savepoint nesting inside the engine is left out. A successful SAVEPOINT marks a transaction active, while RELEASE and ROLLBACK TO leave the flag alone. Releasing the outermost savepoint, which ends the transaction in SQLite, is therefore not reflected.
- User SQL run through `exec` or `transaction` that itself begins or ends a transaction is not modelled. Only `begin`, `commit` and `rollback` change the modelled transaction state.
- SqliteDb.Transaction: the engine's own automatic rollback is not modelled. After SQLITE_FULL, SQLITE_IOERR, SQLITE_NOMEM or SQLITE_BUSY inside a transaction, SQLite may roll the transaction back by itself. `rollback()` then finds autocommit on and issues no ROLLBACK (src/db/sqlite/tim_sqlite_db.cpp:353-355). `SqliteDb.Transaction` and `SqliteDb.TransactionAsWritten` always list `RollbackStmt` after a failed statement, because the modelled `active` flag changes only through `begin`, `commit` and `rollback`.
- SqliteVersion.ReadVersion: follows the Linux branch (`be32toh`). The other branch calls `tim::to_le`, which is not part of this model.
- `tim::to_int` is a parameter of `PromptService.OnPost`. The conversion of a user id to and from `tim::uuid` is not modelled: ids are strings.
- PromptService.ColorIndex: requires a colour count other than 1, since a count of 1 divides by zero. A count of 0 wraps the divisor to 2^64 - 1. This assumes `color_count()` returns `std::size_t`; the terminal class that declares it is not part of this model.
- `std::filesystem::path` is modelled on `/`-separated strings without root names and without collapsing separator runs. Paths are compared as strings.
- LIL arguments and the texts `puts` reads are C strings. The model takes them as strings without NUL, so `strncmp`/`strlen` agree with prefix and length.
- `tim_tcl_cmd_puts` as written declares `text` twice in one `switch` scope, and the `case 2` label jumps past the initialisation of the first. The model follows the evident meaning: each case reads its own text.
- The Tcl interpreter wrapper, the telnet server, the terminal's drawing (`cloud`, `printf`, colours) and the application bootstrap are left out. They are I/O, and they appear only as effects.

Behaviours of the code that the model keeps as written:

- `open` keeps the handle open when the start-up pragmas fail.
- An ERROR followed by the CLOSE of the same connection fires `disconnected` twice.
- Under `mg_match`, "a/#" does not match "a". The matcher is idealised as a glob with full backtracking; mongoose's own source is not part of this model.
- A service that subscribes again on every `connected` signal registers its filters again, so each later message is delivered once per registration.

## Findings

| source | as written | input that shows it | evidently intended | confidence | as-written member | corrected member |
|---|---|---|---|---|---|---|
| src/db/sqlite/tim_sqlite_db.cpp:293-295 | `transaction(sql)` returns the result of `rollback()` when `sql` fails, so a failed statement whose ROLLBACK succeeds is reported as success | outside a transaction, an engine answering OK, then an error for the statement, then OK for ROLLBACK | report failure whenever the statement failed, after rolling it back | high (not executed) | SqliteDb.TransactionAsWrittenHidesFailure | SqliteDb.Transaction |
| src/srv/user/tim_user_service.cpp:35-41 | the service subscribes to "set_nick/+" and "set_icon/+", but `on_change` acts only on the commands "setNick" and "setIcon", so nothing it receives is ever handled | `puts nick:alice` on any terminal publishes to "setNick/<terminal id>", which matches neither filter; every topic the filters do match decodes to "set_nick" or "set_icon" and is ignored | filters and handler agree. The corrected member takes the route `on_change` names: subscribe to "setNick/+" and "setIcon/+", so `puts nick:` and `puts icon:` reach the UPDATE, which then binds the terminal id as `WHERE id`. The unit's private header (src/srv/user/tim_user_service_p.h:11-14) declares handlers `connect`, `setnick` and `seticon` and no `on_change`. That points to another route: "user/connect" (src/srv/prompt/tim_prompt_service.cpp:52) and "user/setnick/<user id>" (src/script/tcl/cmd/tim_tcl_cmd_user.cpp:34-35). That route reaches neither the filters nor the handler as written (`UserService.UserSetNickTopicIgnored`) and is not modelled | medium (not executed) | UserService.AsWrittenFiltersNeverUpdate | UserService.TerminalNickReachesDatabase |
| src/db/sqlite/tim_sqlite_db.cpp:420-423 | when `replicate` fails, `backup` returns before `sqlite3_close(backup_db)` | a destination that opens, followed by a copy loop that stops and a finish that does not answer OK | close the destination connection on every path | high (not executed) | SqliteDb.BackupAsWrittenLeaksOnFailedCopy | SqliteDb.Backup |
