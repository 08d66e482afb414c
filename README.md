# mcp-wx-chatinsight in Dafny

A model of the core of mcp-wx-chatinsight, a Model Context Protocol server for
analysing WeChat chat records stored in MySQL. The server keeps one
connection pool per database name, created on first use. Its `read_query`
tool runs the query once per configured name, on the pool of that name's last
comma-separated piece, and concatenates the rows in configured order.
Its `list_tables` tool gathers `db.table` names. Its `append_insight` tool
adds a business insight to a list, and a `memo://{path}` resource renders
that list as a memo. Before the server starts, the package entry point
validates the database names (single-database or cross-database mode), the
table name, and, with the SSE transport, the port and the endpoint path.

Files:

- `results.dfy`: `Result` and `Outcome`, which stand in for raised `ValueError`s.
- `text.dfy`: the parts of Python's `str` the core uses: `strip`, `upper`,
  `startswith`, `endswith`, `split`, `join` and decimal rendering. Whitespace
  and case are ASCII.
- `cli.dfy`: `validate_db_names`, `validate_table_name`, the SSE checks, and
  their order in the entry point.
- `memo.dfy`: `_synthesize_memo`, and what the memo reads as line by line.
- `server.dfy`: `DatabaseManager` as a class with the fields `pools`,
  `insights` and a creation counter. `ChatInsightServer` is a class with its
  handlers.

Database round trips are parameters of the handlers:

- `execute(db, query)` is the rows a query fetches on database `db`.
- `showTables(db)` is the first column of `SHOW TABLES` on `db`.

Creating a pool is modelled as a fresh identity, `Pool(id, db)`, where `id`
is the value of a creation counter.

The `--db` help text asks for a JSON array in cross-database mode. The code
instead splits the string on commas, and the model follows the code.

## Model

| member | source | states |
|---|---|---|
| Text.Strip | src/mcp_wx_chatinsight/__init__.py:34 | the result is a slice of the input with only whitespace before and after it; it is empty exactly when the input is all whitespace; otherwise it starts and ends with a non-space |
| Text.StripIdempotent | src/mcp_wx_chatinsight/__init__.py:62 | stripping twice gives the same as stripping once |
| Text.StripKeepsAbsence | src/mcp_wx_chatinsight/__init__.py:34 | stripping never introduces a character that was not in the input |
| Text.Split | src/mcp_wx_chatinsight/__init__.py:34 | there is always at least one piece, and no piece contains the separator |
| Text.SplitCount | src/mcp_wx_chatinsight/server.py:48 | the number of pieces is the number of separators plus one |
| Text.JoinSplit | src/mcp_wx_chatinsight/server.py:48 | joining the pieces with the separator gives back the original text |
| Text.SplitJoin | src/mcp_wx_chatinsight/server.py:74 | splitting a join of separator-free pieces gives back the pieces |
| Text.SplitAppend | src/mcp_wx_chatinsight/__init__.py:34 | splitting `a + sep + b` gives the pieces of `a` followed by the pieces of `b` |
| Text.Decimal | src/mcp_wx_chatinsight/server.py:82 | the rendering of `n` is a non-empty string of digits that denotes `n`, with no leading zero unless `n` is 0 |
| Cli.ValidateDbNames | src/mcp_wx_chatinsight/__init__.py:26-50 | in cross-database mode, success gives at least two names, none empty; in any other mode, success holds exactly for a string, which is returned unchanged, and anything else is refused with the not-a-string error |
| Cli.CrossDbFromString | src/mcp_wx_chatinsight/__init__.py:31-43 | a cross-database string is accepted exactly when it has a comma and no comma-separated piece is blank; the names are then the stripped pieces, one more than the commas |
| Cli.CrossDbFromList | src/mcp_wx_chatinsight/__init__.py:35-43 | a list is accepted exactly when it has at least two items and none is blank; a shorter list without blank items is refused as too few; an accepted list keeps its length and order, with each item stripped; any other value is refused with the string-or-list error |
| Cli.CrossDbNamesAreStripped | src/mcp_wx_chatinsight/__init__.py:34-36 | validated cross-database names pass validation again unchanged |
| Cli.CrossDbNamesHaveNoComma | src/mcp_wx_chatinsight/__init__.py:34 | names validated from a string contain no comma |
| Cli.EmptyNameReportedFirst | src/mcp_wx_chatinsight/__init__.py:40-43 | an empty name is reported as the empty-name error, whatever the number of names |
| Cli.SingleNameIsTooFew | src/mcp_wx_chatinsight/__init__.py:42-43 | one comma-free, non-blank name is refused in cross-database mode as too few |
| Cli.EmptyPieceIsRejected | src/mcp_wx_chatinsight/__init__.py:40-41 | an empty piece between two commas is refused as an empty name |
| Cli.TwoNamesAreAccepted | src/mcp_wx_chatinsight/__init__.py:31-43 | two comma-free, non-blank names joined by a comma are accepted, each stripped |
| Cli.ValidateTableName | src/mcp_wx_chatinsight/__init__.py:52-65 | success exactly for a string that is not all whitespace; the result is the stripped string and is non-empty; a non-string gets the not-a-string error and a blank string the empty-name error |
| Cli.TableNameIdempotent | src/mcp_wx_chatinsight/__init__.py:59-62 | a validated table name passes validation again unchanged |
| Cli.ValidateSse | src/mcp_wx_chatinsight/__init__.py:140-146 | the check passes exactly when the transport is not `sse`, or when the port is in 1024..65535 and the path starts with `/` and ends with `/sse`; exactly an out-of-range port under `sse` is reported as the port error; with a valid port, a path without a leading `/` gets the leading-slash error, and a path with one but without the `/sse` ending gets the suffix error |
| Cli.ValidateArgs | src/mcp_wx_chatinsight/__init__.py:133-146 | the configuration is accepted exactly when the names, the table name and the SSE settings all pass; the first failing check in that order is reported with its own error; the accepted configuration carries the validated names and table name and the given mode, transport, port and path |
| InsightMemo.Render | src/mcp_wx_chatinsight/server.py:68-85 | the fixed no-insight sentence is produced exactly when there are no insights; otherwise the memo starts with the title and a blank line |
| InsightMemo.RenderLines | src/mcp_wx_chatinsight/server.py:74-82 | for any non-empty list of insights, the memo read line by line is the title, a blank line, the heading, a blank line, the lines of the joined bullet block, and, only for two or more insights, the summary heading and sentence |
| InsightMemo.RenderLinesOneBulletEach | src/mcp_wx_chatinsight/server.py:74-82 | for a non-empty list of insights without line breaks, the bullet block is exactly one `- ` line per insight, in insertion order |
| InsightMemo.BodyLines | src/mcp_wx_chatinsight/server.py:78-82 | for any non-empty list of insights, the part after the heading is the lines of the bullet block, followed by the two summary lines exactly when there are two or more insights |
| InsightMemo.SummaryNamesCount | src/mcp_wx_chatinsight/server.py:82 | the digits between the summary's fixed opening and closing denote the number of insights |
| Server.TemplatePath | src/mcp_wx_chatinsight/server.py:101 | a URI matches the `memo://{path}` template exactly when it starts with `memo://`, and the scheme followed by the bound path is the URI again |
| Server.TemplateBindsPath | src/mcp_wx_chatinsight/server.py:101 | any path placed after `memo://` is bound back by the template |
| Server.AnnouncedUriAsWrittenIsRefused | src/mcp_wx_chatinsight/server.py:207 | the URI announced after an insight is added binds the path `insights`, which is not the served path `memo_insights` |
| Server.DbNamePartsShape | src/mcp_wx_chatinsight/server.py:47-50 | the databases named by a `get_pool` argument are comma-free, one more than its commas, and join back into the argument |
| Server.PoolCountBound | src/mcp_wx_chatinsight/server.py:51-60 | adding the pieces of one argument adds at most as many names as there are pieces |
| Server.PlainNameIsItsOwnTarget | src/mcp_wx_chatinsight/server.py:47-61 | a name without a comma is a single database, and its pool is its own |
| Server.JoinedNameTargetsLastPiece | src/mcp_wx_chatinsight/server.py:47-61 | a comma-joined name opens a pool for its first piece and for each piece of the rest, but returns the pool of the last piece |
| Server.ValidatedCrossDbNamesArePlain | src/mcp_wx_chatinsight/server.py:47-50 | each name that cross-database validation accepts from a string names only itself, so its pool is on that database |
| Server.AllPartsOfPlainNames | src/mcp_wx_chatinsight/server.py:222-223 | for comma-free names, the databases opened are exactly the configured names |
| Server.ReadGateIgnoresTrailing | src/mcp_wx_chatinsight/server.py:142 | the SELECT gate depends only on the text after leading whitespace is removed; trailing whitespace plays no part |
| Server.ReadGateIsPrefixOnly | src/mcp_wx_chatinsight/server.py:142-143 | any text that begins with `SELECT` passes the gate, whatever follows it |
| Server.GatherConcatenatesInOrder | src/mcp_wx_chatinsight/server.py:145-153 | the rows fetched on the i-th name's target database come after the rows of every earlier name and before those of every later one |
| Server.ListingMembers | src/mcp_wx_chatinsight/server.py:167-175 | a name is listed exactly when it is some configured name, a dot, and a table of that name's database |
| Server.QualifiedNameSplitsBack | src/mcp_wx_chatinsight/server.py:174 | for a database name without a dot, the listed name splits at its first dot back into the database name |
| Server.DatabaseManager.constructor | src/mcp_wx_chatinsight/server.py:41-44 | a new manager has no pools and no insights |
| Server.DatabaseManager.EnsurePool | src/mcp_wx_chatinsight/server.py:52-60 | a name that already has a pool keeps it, and nothing changes; otherwise one fresh pool on that database is added |
| Server.CreationsCountNewKeys | src/mcp_wx_chatinsight/server.py:51-53 | the pools a pass over the pieces creates number exactly the names it adds to the registry, however often a piece repeats |
| Server.KnownPartsCreateNothing | src/mcp_wx_chatinsight/server.py:52 | a pass over names that all have pools creates none |
| Server.CreationsOverCountNewKeys | src/mcp_wx_chatinsight/server.py:46-61 | the pools a handler's `get_pool` calls over all configured names create number exactly the databases they add to the registry, so no database gets a second pool |
| Server.DatabaseManager.GetPool | src/mcp_wx_chatinsight/server.py:46-61 | the pool names grow by exactly the argument's pieces; existing pools are kept; each new pool is fresh; the creation count grows by exactly one per piece that had no pool yet (no creation on a hit); the returned pool is the stored pool of the last piece and is opened on that database |
| Server.ChatInsightServer.constructor | src/mcp_wx_chatinsight/server.py:88-93 | a single name becomes a one-element list and a list is kept as it is; the manager starts empty |
| Server.ChatInsightServer.Start | src/mcp_wx_chatinsight/server.py:218-223 | after start-up, every database named by the configured names has a pool, existing pools are kept, and exactly one pool is created per database that had none |
| Server.ChatInsightServer.Resource | src/mcp_wx_chatinsight/server.py:102-108 | the resource is served exactly for the path `memo_insights`, as the rendered memo of the current insights; any other path is refused with that path |
| Server.ChatInsightServer.ReadQuery | src/mcp_wx_chatinsight/server.py:142-153 | a query is accepted exactly when it passes the SELECT gate; a refused query opens no pool; an accepted one returns each configured name's rows in order and opens a pool for every database the names name, creating exactly one per database that had none |
| Server.ChatInsightServer.CollectRows | src/mcp_wx_chatinsight/server.py:145-153 | the rows are each configured name's rows in order, and a pool is opened for every database the names name, with existing pools kept and exactly one pool created per database that had none |
| Server.ChatInsightServer.ListTables | src/mcp_wx_chatinsight/server.py:167-175 | the result is the set of `name.table` for each configured name and each table of its pool's database; a pool is opened for every database the names name, exactly one per database that had none |
| Server.ChatInsightServer.AppendInsight | src/mcp_wx_chatinsight/server.py:203-216 | the insight is appended at the end of the list, the reply is the fixed confirmation, and the announced URI binds the path the memo resource serves |

## Findings

| source | as written | input that shows it | evidently intended | confidence | as-written member | corrected member |
|---|---|---|---|---|---|---|
| src/mcp_wx_chatinsight/server.py:207 | `append_insight` announces `memo://insights` as updated | any `append_insight` call: the template `memo://{path}` binds `insights`, and `resource` raises the unknown-path error for it | announce `memo://memo_insights`, the URI under which the memo is served | not executed; medium (assumes the protocol layer binds `{path}` to the whole text after the scheme) | Server.AnnouncedUriAsWrittenIsRefused | Server.ChatInsightServer.AppendInsight |

## Left out

- `report.py` is not part of this model.
- `prompt.py` (the `mcp-demo` prompt template) is not part of this model.
- The `describe_table` tool is left out, because it prefixes the DDL with a sentence built from Python's list `repr` of the `db.table` names, whose quoting and escaping rules are not modelled. It also opens pools through `get_pool` on the first configured name.
- Server configuration from environment variables, `DatabaseManager.close`, and the `finally` around start-up are left out. They are I/O; `close` does not change `pools`.
- Registration with the protocol framework, the transports, the running server, logging, argument parsing and the process exit are left out, because they belong to libraries outside the core.
- The Windows console re-encoding is left out, because it is platform I/O.
- Concurrency between asynchronous handlers is not modelled: each handler runs as one uninterrupted step.
- Text.Strip: whitespace is ASCII only, because Python's Unicode `isspace` table is not modelled.
- Text.Upper: only ASCII letters change case, so a query beginning with a non-ASCII letter that Python upper-cases into `SELECT` is refused here.
- Server.DatabaseManager.GetPool: a failed connection attempt is not modelled; creating a pool always succeeds.
- Server.ChatInsightServer.ReadQuery: `execute` is total, so database errors raised while a query runs are not modelled, nor are the pools opened before such an error.
- Server.ChatInsightServer.ListTables: returns the set of names; the order in which Python's `list(set)` lists them is not fixed.
- Server.ChatInsightServer.AppendInsight: the reply is the confirmation text rather than a one-element list of text content, and the announced URI is the corrected one (see Findings).
- Cli.CrossDbFromList: list items are strings; the `str(name)` conversion of non-string items is not modelled.
- Server.TemplatePath: template matching is reduced to removing the `memo://` prefix; the framework's own matching rules are not modelled.
