# pgmicro: verified models of its concurrent state and its codecs

pgmicro is a database engine written in Rust, with a shell, a PostgreSQL wire server and a page-sync
server around it. This project models the parts of it that are algorithms and state machines of their
own, and proves what they promise, for every input and every run. `dafny verify dfyconfig.toml` checks
all of it.

| modules | what they model |
|---|---|
| Registry | the process-wide registry that keeps one shared database per file while any number of openers race, none holding the lock across an I/O yield |
| ConnectionState, NestedTransactions, Leftovers, Staging, CommitOrder, TransactionEnd, History, TempSchema, Connections | a connection's savepoint stack, the schema changes it stages for attached databases until their commit, and its temp schema |
| Calendar, Timestamp, Decimal | proleptic Gregorian day arithmetic in 32-bit integers and the printed timestamps built on it |
| EditDistance | the two-row edit distance behind the shell's page suggestions |
| Replication | the reverse scan of the write-ahead log that answers a sync pull, and its length-delimited framing |
| CopyBinary, CopyGrammar, CopyText | the COPY binary writer and reader, the format's grammar, and the COPY text reader |
| Catalog, Bits | the bitmap that hands out indices to attached databases |
| Recogniser, Tokenizing, Lexemes, LineByLine | the shell's statement recogniser, the lexical grammar behind it, and its reading of a text line by line |
| Literals, ParameterValues, InsertLines, ApplyWriter, DumpText | the shell's literal printer and parser, the writer that replays a dump, and the bytes of a dump's INSERT lines |
| Busy, Parameters | busy back-off and the numbering of bind parameters |

Where the source works in place, the model is a class or a method with loops, proved against a function
of the old state; where several parties interleave, it is a state machine, and the theorems are about
every run of it. Each main result is tied to a definition that knows nothing of the implementation: a
least edit script, a replay of every log frame, an undo log without snapshots, the edits of the published
transactions in commit order, the calendar's leap-year rule, a reader of ISO 8601 dates, the grammars of a
statement, of a text's lexemes, of literals and of the COPY formats.

## Results that are not what one would hope

Each of these is kept as the code has it, with the exact condition under which the promise holds.

- Registry: an open that failed and is polled again finishes as a live database that is not registered,
  so a second opener gets another one (`RetryAfterFailure`). The databases in use are all registered
  throughout a run exactly when no open in it finishes without its reservation (`PublishedThroughoutIff`),
  and then there is one for each key (`OneOpenDatabasePerKey`).
- Staging: when a failing statement takes the transaction with it, the savepoint frames stay. A reused
  index can then show the schema staged for the database that was detached from it. Whatever a connection
  has been through, a freed index is safe if and only if no open savepoint has a schema staged at it
  (`ReusedIndexSafeIff`). Where the main pager has forgotten its savepoints, a RELEASE whose commit is
  refused brings the frames back within reach (`FrameIsReached`, `EverySavedSchemaShows`). Schemas stay
  staged under write locks exactly as long as no ROLLBACK TO brings one back for a database that is no
  longer locked (`GuardedThroughoutIff`).
- NestedTransactions: a savepoint that begins a transaction can be released without a commit. RELEASE starts
  the commit if and only if the savepoint began the transaction and the main pager had no other savepoint
  (`ReleaseCloses`, for every connection); a failing statement can leave one there
  (`ReleaseWithoutCommit`).
- History: the shared schema of a database is the edits of its published transactions in commit order as
  long as every ROLLBACK TO brings back only what still stands on the schemas that are shared
  (`SharedIsHistory`; per step the condition is exact, `StepSoundIff`), and so in every run where failing
  statements end transactions without open savepoints (`SharedIsHistoryOfTameRuns`). Otherwise a
  connection can publish a schema from before the failing statement over what others have published since
  (`OverwritesAfterAbort`, `LostDdl`).
- TempSchema: ROLLBACK restores the committed temp schema exactly when the flag is set or nothing differs
  (`RollbackRestoresIff`), and three kinds of step can make it differ with the flag clear, each with its
  exact condition (`StepTrackedIff`, `TrackedThroughoutIff`): DROP TABLE on another database, which edits
  the temp triggers on the table without setting the flag (`LostTempTrigger`, `UnflaggedEditIff`); the end
  of a statement after a failing one has left savepoint frames (`LostAfterAbort`); and a change of temp
  store after that (`ReturnsAfterReset`). The invariant behind it is exactly the promise
  (`TrackedIsThePromise`). A failing statement also leaves temp DDL behind, which the next
  statement commits (`AbortThenCommit`).
- Calendar, Timestamp: `days_from_civil` stays within 32 bits exactly from -5877641-06-23 to
  5879610-09-09; `format_pg_date` overflows exactly for the last 10957 day counts.
- Lexemes: a block comment whose body begins with a slash ends at that slash, because the star that opens it
  is taken for the star that closes it (`BlockCommentIff`), so that `/*/;--*/` passes for a statement
  (`CommentThatIsComplete`). A dollar quote is closed by any characters whose low bytes are its tag
  (`DollarQuoteIff`, `DollarQuoteThatIsComplete`); for characters of one byte there is no difference
  (`OneByteQuote`).
- LineByLine: the shell starts its tokenizer anew on every line. That is the same as reading the whole text if
  and only if no comment and no quotation is open at the end of a line (`LineByLineIff`); a text literal over
  two lines keeps a statement from being recognised (`TextOverTwoLines`).
- CopyText: the reader splits fields at escaped delimiters, takes texts that look like the null string for
  nulls, and skips empty lines, so the round trip holds exactly where none of this happens
  (`TextRoundTripIff`, `ComesBackIff`). With tabs and two or more columns it always holds.
- CopyBinary: rows of more than 32767 columns and oversized fields are written with a zero count and do
  not come back (`CopyRoundTrip` is an equivalence).
- ApplyWriter, DumpText: a dump is replayed statement by statement exactly when no statement contains a
  semicolon before a line end (`DumpReplays`); for its INSERT lines, exactly when no table name and no text
  value contains one (`RowsReplayIff`, `DumpThatDoesNotReplay`).
- Busy: a timeout is waited out exactly when it is at most 214 748 363 828 ms; beyond that the 32-bit
  invocation count runs out first (`RefusalReachedIff`).

## Model

| member | source | states |
|---|---|---|
| Registry.DatabaseManager.Reserve | core/lib.rs:1129-1169 | the check-and-reserve is the one step of a first poll that is possible: a live database is handed out, another unfinished opener is waited for, or the reservation is made |
| Registry.DatabaseManager.Abandon | core/lib.rs:1104-1110 | it is the step of a failure or a drop, and of all entries only the opener's own sentinel goes |
| Registry.DatabaseManager.Publish | core/lib.rs:1184-1190 | it is the step of a completed open, and of all entries only the opener's own sentinel becomes the database |
| Registry.DatabaseManager.PublishShared | core/lib.rs:796-803 | it is the step of the second look, after which the caller holds what is registered under the name |
| Registry.KeepsSentinels | core/lib.rs:538-545 | every step keeps sentinels and holders in one-to-one correspondence |
| Registry.KeepsPrivate | core/lib.rs:1172-1182 | every step keeps a half-open database out of everyone else's reach |
| Registry.KeepsPublished | core/lib.rs:1184-1190 | every step keeps each live published database in the registry under its key |
| Registry.EveryRunSafe | core/lib.rs:1084-1192 | the three invariants hold in every world of every run of any number of openers |
| Registry.OneDatabasePerKey | core/lib.rs:556-583 | two live published databases of one key, file or shared memory, are one object, and a lookup returns it |
| Registry.SentinelIffHeld | core/lib.rs:548-554 | a key shows a sentinel if and only if an opener holds it, and then exactly one does |
| Registry.SentinelOnlyLeftByHolder | core/lib.rs:538-545 | a sentinel goes only by its holder's failure, drop or completion, leaving no entry or the live database |
| Registry.PollOutcome | core/lib.rs:1136-1165 | exactly one outcome of a first poll is possible, and a busy one means another unfinished opener |
| Registry.CompleteRegistersIff | core/lib.rs:1184-1190 | a finished open is registered if and only if its key was not given up |
| Registry.PublishedThroughoutIff | core/lib.rs:1084-1192 | over a whole run every database in use is published if and only if no open finishes without its reservation |
| Registry.OneOpenDatabasePerKey | core/lib.rs:556-583 | in such a run two callers of one key hold one database, which is the registered one |
| Registry.RetryAfterFailure | core/lib.rs:1104-1110 | a run that ends with two live databases of one file |
| Registry.HandlesMove | core/lib.rs:1129-1192 | what a step hands out: a first poll, a lookup and both looks at shared memory the database registered under the key, a finished open its own, registered if the key was kept; no other step moves a handle |
| Registry.GivingUpFrees | core/lib.rs:1104-1110 | after a failure or a drop nobody holds the key, any idle opener can reserve it, and a dropped opener keeps no object alive |
| Registry.OpenCompletes | core/lib.rs:1129-1192 | from every run, an open of a file without entry can go through, and its caller holds the registered database |
| Registry.SharedOpensMeet | core/lib.rs:780-804 | from every run, of two callers that both find no shared memory of a name, the second gets what the first registered |
| ConnectionState.LastNamed | core/connection.rs:3270-3272 | the last position of a name, with no later one of that name |
| ConnectionState.StepGood | core/connection.rs:3247-3327 | a step keeps staged schemas and all savepoint snapshots under held write locks, the two savepoint stacks in step and frames inside transactions, if and only if it is not a failing statement with savepoints open |
| ConnectionState.StepGuardedIff | core/connection.rs:3283-3297 | from any state, a step keeps schemas staged under write locks only if and only if it does not roll back to a snapshot of a database that is no longer locked |
| ConnectionState.GoodIsBacked | core/connection.rs:3283-3297 | without such failing statements no step does |
| NestedTransactions.RefinesNestedTransactions | core/connection.rs:3247-3301 | from every connection without open savepoints, every run of savepoints, releases, refused releases, partial rollbacks, schema changes, ATTACH and DETACH ends with the schemas that replaying an undo log gives, and with one frame for each open mark |
| NestedTransactions.CutMatches | core/connection.rs:3283-3297 | the snapshot of the innermost frame of a name is the replay of the log up to that frame's mark |
| NestedTransactions.MergedMatches | core/connection.rs:3268-3281 | truncating the stack at a frame is taking its mark and all later ones out of the log, losing no change |
| NestedTransactions.ReleaseSimulates | core/vdbe/execute.rs:4071-4109 | RELEASE commits exactly when it names the transaction's only mark up to there and that one started it |
| NestedTransactions.StepSimulates | core/vdbe/execute.rs:3990-4150 | each step of the connection is the step of the undo log |
| NestedTransactions.RollbackToIdempotent | core/connection.rs:3283-3297 | ROLLBACK TO twice is once, in every state |
| NestedTransactions.RollbackToUndoes | core/vdbe/execute.rs:4112-4149 | on every connection, SAVEPOINT, any run that does not close it and ROLLBACK TO restore all schemas and leave the savepoint open on the same two stacks |
| NestedTransactions.ReleaseCloses | core/connection.rs:3268-3281 | on every connection, SAVEPOINT, any run that does not close it and RELEASE lose nothing; the commit starts if and only if the savepoint began the transaction and the main pager had no other, and what is left on both stacks |
| NestedTransactions.ReleaseWithoutCommit | core/storage/pager.rs:1816-1828 | after a failing statement that left a savepoint on the main pager, SAVEPOINT and RELEASE outside a transaction leave the connection inside one |
| NestedTransactions.ReleaseWithoutCommitExample | core/storage/pager.rs:2804-2811 | such a run from a new connection |
| Staging.EveryRunLocked | core/vdbe/execute.rs:3581-3612 | in every run of any number of connections a database has one writer at most, and locks are on attached databases |
| Staging.NewWorldGuarded | core/connection.rs:2233-2252 | new connections are where every run can start |
| Staging.GuardedThroughoutIff | core/connection.rs:2233-2252 | all through a run schemas are staged under write locks only, if and only if no ROLLBACK TO in it brings one back without its lock |
| Staging.NonInterference | core/connection.rs:2233-2252 | as long as the others publish none of the databases that a connection works with, its own steps alone are a run and end in the same connection and the same shared schemas of those databases |
| Staging.SeesAsAlone | core/connection.rs:2709-2733 | and it sees the same schemas as it would alone |
| Staging.PublishedToAll | core/connection.rs:2743-2755 | publishing shows every connection exactly what the committing one saw, except one with a schema of its own staged, which then has no write lock and is not guarded |
| Staging.WriterFreezesShared | core/vdbe/mod.rs:2070-2113 | in every run, while a connection writes a database its shared schema stands still |
| Staging.RollbackSeesShared | core/connection.rs:3212-3237 | after a full rollback, asked for or forced, a connection sees the shared schemas, whatever it has been through |
| CommitOrder.CommitPublishes | core/vdbe/mod.rs:2070-2137 | from its start to its end, in whatever order: each database with a staged schema has it, every other is as it was, nothing is left staged, and at every index that it wrote the connection sees what it saw |
| TransactionEnd.RollbackEnds | core/vdbe/execute.rs:3875-3892 | on every connection inside a transaction, ROLLBACK leaves it outside, idle, with no write, mark, frame or lock; a second one changes nothing and every attached database can be detached |
| TransactionEnd.CommitEnds | core/vdbe/execute.rs:3893-3947 | so does COMMIT from its start to its end, in whatever order the attached databases are committed |
| TransactionEnd.ReleaseIsCommit | core/vdbe/execute.rs:4071-4109 | the RELEASE that commits ends in the same connection and the same shared schemas as COMMIT |
| TransactionEnd.NothingToEnd | core/vdbe/execute.rs:3904-3920 | outside a transaction COMMIT and ROLLBACK change nothing |
| TransactionEnd.StatementEnds | core/vdbe/mod.rs:1745-1772 | the end of a statement outside transactions: no lock stays, frames stay, the main pager's savepoints go only with a write to main |
| TransactionEnd.FailureEnds | core/connection.rs:3305-3327 | a failing statement leaves no transaction and no lock, keeps frames and temp schema, and the main pager's savepoints unless main was written |
| TransactionEnd.LockedStays | core/connection.rs:2641-2645 | a database that is locked, for reading too, is not detached |
| TransactionEnd.MarksAfterRollbackTo | core/vdbe/execute.rs:4112-4149 | which marks ROLLBACK TO keeps, on every connection, also where the two stacks differ |
| TransactionEnd.InsideSince | core/vdbe/execute.rs:3860-3922 | over every run: after BEGIN or SAVEPOINT the connection is inside a transaction until a step that closes one, and after that outside until one that opens one |
| History.StepSoundIff | core/connection.rs:3283-3297 | with any number of connections, a step keeps every staged schema equal to its surviving edits on top of the shared one if and only if it is no ROLLBACK TO a snapshot that is not |
| History.SharedIsHistory | core/connection.rs:2743-2755 | after any run whose steps all keep that, the shared schema of a database is the fold of the edits of its published transactions in commit order, less what savepoints undid |
| History.SharedIsHistoryOfTameRuns | core/connection.rs:2743-2755 | so it is in every run from new connections where no failing statement ends a transaction with savepoints open |
| History.OverwritesAfterAbort | core/connection.rs:3305-3327 | in any world where such a statement left a savepoint: the run that publishes the savepoint's schema over whatever is shared by then |
| History.LostDdl | core/connection.rs:3305-3327 | a run of two new connections after which a committed table is gone from the shared schema |
| Staging.GoodIsUnsaved | core/connection.rs:2607-2672 | without failing statements that leave frames, no open savepoint has a schema staged at an index that can be detached |
| Staging.ReusedIndexIsFresh | core/connection.rs:2665-2668 | if no open savepoint has a schema staged at the index, then after DETACH, through any later run, a database attached there is seen as it is shared until the connection changes it |
| Leftovers.FrameIsReached | core/vdbe/execute.rs:4094-4103 | from every connection between statements, each open frame becomes the top one with a mark of its name over it, by failing statements, savepoints and refused releases alone |
| Staging.EverySavedSchemaShows | core/connection.rs:3283-3297 | if some open savepoint of any connection has a schema staged at a freed index, a run without DDL makes a database attached there show that schema |
| Staging.ReusedIndexSafeIff | core/connection.rs:2607-2672 | for every connection, a freed index shows what is shared there in every later run, whatever the shared schemas are, if and only if no open savepoint has a schema staged at it |
| Staging.ReusedShows | core/connection.rs:2607-2672 | for every connection, what DETACH, ATTACH and ROLLBACK TO make an index show |
| Staging.StaleIff | core/connection.rs:3305-3327 | what one script shows, from every connection: a failing statement, DETACH, ATTACH and ROLLBACK TO show the savepoint's schema if the main database was not being written and there is one, else the new database's |
| Staging.ReuseRun | core/connection.rs:2607-2672 | the steps of that scenario are all possible |
| Staging.StaleExample | core/connection.rs:3305-3327 | a run of nine steps from a new connection after which an empty database shows a table |
| TempSchema.EveryRunInitialised | core/connection.rs:517-581 | in every reachable state a set flag means an initialised temp database, so the asserts never fire |
| TempSchema.TempDatabaseIff | core/connection.rs:488-512 | only temp DDL and its like initialise the temp database and only a change of temp store takes it away; no commit, rollback or savepoint does |
| TempSchema.StepTrackedIff | core/connection.rs:506-581 | with the flag clear the live temp schema and every snapshot of it are the committed one: a step keeps this if and only if it is no effective unflagged edit, no reset under other snapshots and no statement end that commits under other snapshots |
| TempSchema.TrackedThroughoutIff | core/connection.rs:506-581 | so do all states of a run, if and only if each of its steps does |
| TempSchema.GoodKeepsTrack | core/connection.rs:506-581 | without failing statements that leave frames, only unflagged edits can break it |
| TempSchema.EveryRunTracked | core/connection.rs:531-581 | in such runs the kept copy is the temp schema that stood at the last commit |
| TempSchema.RollbackRestores | core/connection.rs:560-581 | in every run of a connection whose steps keep track, failing statements included, ROLLBACK restores exactly the temp schema that stood at the last commit |
| TempSchema.TrackedIsThePromise | core/connection.rs:531-581 | for every connection between statements: ROLLBACK after any steps that keep track gives the temp schema of the last commit if and only if the connection is tracked |
| TempSchema.RollbackRestoresIff | core/connection.rs:560-581 | in every transaction ROLLBACK restores the committed temp schema if and only if the flag is set or the live one is it |
| TempSchema.UnflaggedEditIff | core/vdbe/execute.rs:11087-11098 | an unflagged edit is undone by ROLLBACK if and only if the flag was set before or nothing changed |
| TempSchema.LostTempTrigger | core/vdbe/execute.rs:11087-11098 | BEGIN, DROP TABLE, ROLLBACK loses a temp trigger |
| TempSchema.AbortThenCommit | core/connection.rs:3305-3327 | after a failing statement the next one commits the temp schema as it was left |
| TempSchema.SnapshotSurvives | core/vdbe/execute.rs:4131-4149 | a snapshot restored with the flag clear is what a later ROLLBACK leaves |
| TempSchema.LostAfterAbort | core/connection.rs:3305-3327 | SAVEPOINT, temp DDL, a failing statement, another statement that does not write main, ROLLBACK TO, BEGIN, ROLLBACK: what was committed is not restored, unless the DDL changed nothing |
| TempSchema.CommittedAfterAbortIsARun | core/connection.rs:3305-3327 | the steps of it are all possible |
| TempSchema.ReturnsAfterReset | core/connection.rs:506-512 | SAVEPOINT, a failing statement, a change of temp store, ROLLBACK TO, BEGIN, ROLLBACK: the schema thrown away is back, unless it was empty |
| TempSchema.ResetAfterAbortIsARun | core/connection.rs:2883-2890 | the steps of it are all possible |
| Connections.Connection.RPosition | core/connection.rs:3270-3272 | the backward scan finds the innermost frame of a name |
| Connections.Connection.Savepoint | core/vdbe/execute.rs:3991-4066 | SAVEPOINT is the step of the connection's value, with the snapshots of that moment |
| Connections.Connection.ReleaseNamedSavepointFrame | core/connection.rs:3268-3281 | not found if and only if no frame has the name; commit if and only if it is the bottom frame and started the transaction; otherwise the frames below remain |
| Connections.Connection.ReleaseSavepoint | core/vdbe/execute.rs:4071-4109 | RELEASE is its step, decided by the main pager's stack; where the commit that it stands for is refused, the frame may be gone and the mark stays |
| Connections.Connection.RollbackNamedSavepointFrame | core/connection.rs:3283-3297 | returns the innermost frame of the name and keeps the stack up to it |
| Connections.Connection.RollbackTo | core/vdbe/execute.rs:4112-4149 | ROLLBACK TO is its step, refused exactly when the main pager does not know the name |
| Connections.Connection.EnsureTempDatabase | core/connection.rs:488-499 | initialises the temp database once |
| Connections.Connection.SetTempStore | core/translate/pragma.rs:757-770 | a change of temp store is its step, refused inside a transaction with a temp database |
| Connections.Connection.TempDdl | core/vdbe/execute.rs:11918-11926 | temp DDL is its step, and the assert of the mark holds in it |
| Connections.Connection.CommitTempSchema | core/connection.rs:531-555 | with the flag set the live schema becomes the committed copy; its assert holds |
| Connections.Connection.RollbackTempSchema | core/connection.rs:560-581 | with the flag set the committed copy, or the empty schema, becomes live; its assert holds |
| Connections.Connection.CachedNonMainSchema | core/connection.rs:2709-2733 | the schema that a statement is compiled against is the one that the theorems say is seen |
| Connections.Connection.WithDatabaseSchemaMut | core/connection.rs:2212-2252 | temp is changed directly, an attached schema in the connection's own copy, taken from the shared one the first time |
| Connections.Connection.AttachedDdl | core/connection.rs:2233-2252 | DDL on an attached database is its step, and no shared schema changes |
| Connections.Connection.PublishDatabaseSchema | core/connection.rs:2743-2755 | the staged schema reaches its database and is no longer staged |
| Connections.Connection.EndAttachedTxn | core/vdbe/mod.rs:2099-2104 | the commit of one attached database is its step, on the connection and on the shared schemas |
| Connections.Connection.EndAttachedTxns | core/vdbe/mod.rs:2070-2113 | the loop is a run of such steps in some order, after which no write lock is left |
| Connections.Connection.EndCommit | core/vdbe/mod.rs:1755-1768 | the end of a commit is its step; the main pager's savepoints go with a commit of main, the frames only with an explicit one |
| Connections.Connection.RollbackAttachedWalTxns | core/connection.rs:3212-3237 | no lock and no staged schema of an attached database stays, and nothing else changes |
| Connections.Connection.Rollback | core/vdbe/execute.rs:3875-3892 | ROLLBACK is its step, refused exactly outside a transaction |
| Connections.Connection.RollbackCurrentTxnState | core/connection.rs:3305-3327 | a failing statement is its step, which leaves frames and temp schema alone |
| Connections.Connection.DetachDatabase | core/connection.rs:2607-2672 | the four refusals in their order, changing nothing; otherwise its step, with alias, database and staged schema gone together |
| Calendar.DaysFromCivilClosed | cli/pg_server.rs:1072-1085 | the era formula is the count of days in March-based years |
| Calendar.DayNumberOrders | cli/pg_server.rs:1072-1085 | day numbers order dates as the calendar does |
| Calendar.NoOverflowExactly | cli/pg_server.rs:1072-1085 | the range of dates on which no intermediate value leaves 32 bits, both ways |
| Calendar.CivilRoundTrip | cli/pg_server.rs:1087-1104 | every 32-bit day number gives a valid date without a fallback value, and that date's number is the day again |
| Calendar.DaysRoundTrip | cli/pg_server.rs:1072-1104 | every valid date whose number does not overflow is recovered from it |
| Calendar.CivilSuccessor | cli/pg_server.rs:1087-1104 | the next day number is the next calendar day under the leap-year rule |
| Calendar.Epoch | cli/pg_server.rs:1087-1104 | day 0 is 1970-01-01 |
| Timestamp.TimestampDayFits | cli/pg_server.rs:1127-1136 | for every 64-bit microsecond count the cast to 32 bits loses nothing and the date addition does not overflow |
| Timestamp.PgDateOverflow | cli/pg_server.rs:1106-1109 | exactly which day counts overflow |
| Timestamp.DateReadBack | cli/pg_server.rs:1106-1109 | a reader of ISO 8601 dates that knows nothing of the printer gets year, month and day back from every valid date's text; a year of 0 to 9999 takes four characters |
| Timestamp.DateTextInjective | cli/pg_server.rs:1106-1109 | the printed date determines the date |
| Timestamp.FractionReadBack | cli/pg_server.rs:1117-1124 | the digits after the point, with zeros up to six, are the microseconds, and the last is not a zero |
| Timestamp.TimeReadBack | cli/pg_server.rs:1111-1125 | hours, minutes, seconds and fraction are read back as the microsecond of the day, for every count |
| Timestamp.TimeTextInjective | cli/pg_server.rs:1111-1125 | the printed clock and zero-trimmed fraction determine the microsecond of the day |
| Timestamp.PgDateReadBack | cli/pg_server.rs:1106-1109 | every day count that does not overflow is printed as the date that many days after 2000-01-01 |
| Timestamp.TimestampReadBack | cli/pg_server.rs:1127-1136 | every 64-bit timestamp is read back from its text |
| Timestamp.TimestampTextInjective | cli/pg_server.rs:1127-1136 | the printed timestamp determines the 64-bit input |
| Timestamp.UtcDateAgrees | core/build.rs:91-107 | the build script's own date algorithm names the same date for every day |
| Timestamp.UtcReadBack | core/build.rs:91-107 | its text of every second is read back as that second |
| Timestamp.UtcTextAgrees | core/build.rs:91-107 | it prints the same text as the wire server for the same second |
| EditDistance.Levenshtein | cli/manual.rs:75-102 | the two-row loop returns the least number of insertions, deletions and substitutions that turn one string into the other |
| EditDistance.FillRow | cli/manual.rs:88-98 | the inner loop fills one row of the distances between prefixes |
| EditDistance.CloneFromSlice | cli/manual.rs:99 | the row just filled becomes the previous row |
| EditDistance.ScriptAtLeastDist | cli/manual.rs:75-102 | no script is shorter than the recurrence says |
| EditDistance.BestScript | cli/manual.rs:75-102 | some script is as short |
| EditDistance.DistZero | cli/manual.rs:75-102 | the distance is zero only between equal strings |
| EditDistance.DistSymmetric | cli/manual.rs:75-102 | it is symmetric |
| EditDistance.DistTriangle | cli/manual.rs:75-102 | it satisfies the triangle inequality |
| EditDistance.FindClosest | cli/manual.rs:104-127 | none if and only if no page is similar, else the first page at the least distance |
| EditDistance.SimilarIsRelative | cli/manual.rs:110-122 | a page is similar if and only if the distance over the longer length is below 0.4 |
| EditDistance.ExactNameWins | cli/manual.rs:104-127 | an existing page is suggested for its own name |
| Replication.HandlePullUpdates | cli/sync_server.rs:492-542 | the reverse scan sends exactly the last selected write of each page in the range |
| Replication.InstalledAt | cli/sync_server.rs:506-542 | after installing, a selected page holds its last version of the range and every other page is untouched |
| Replication.PullCatchesUp | cli/sync_server.rs:506-542 | a client at revision c that installs the pull agrees with the replay of every frame up to s on each selected page |
| Replication.PullsCompose | cli/sync_server.rs:506-542 | pulling in two stages is pulling at once |
| Replication.SentInOrder | cli/sync_server.rs:535-542 | pages go out in the order of their last writes, all of them |
| Replication.NoPageTwice | cli/sync_server.rs:514-517 | no page is sent twice |
| Replication.EncodeLengthDelimited | cli/sync_server.rs:658-666 | appends the base-128 length and the message |
| Replication.EncodeResponse | cli/sync_server.rs:559-571 | the response body decodes to the header and the pages |
| Replication.VarintRead | cli/sync_server.rs:658-666 | a base-128 length in front of anything is read back |
| Replication.StreamRoundTrip | cli/sync_server.rs:559-571 | the framed messages decode to exactly those messages |
| CopyBinary.EncodeCopyBinaryRows | core/copy.rs:164-183 | the bytes are the tuples of the binary format and the trailer |
| CopyBinary.EncodeCopyBinaryFile | core/copy.rs:186-190 | the signature in front of them |
| CopyBinary.ReadI16Be | core/copy.rs:98-105 | a big-endian 16-bit read, or an error at the end of the data |
| CopyBinary.ReadI32Be | core/copy.rs:107-114 | a big-endian 32-bit read, or an error at the end of the data |
| CopyBinary.ReadField | core/copy.rs:139-156 | the cursor and the result agree with the grammar of a field, for every error too |
| CopyBinary.ReadRow | core/copy.rs:137-157 | the same for the fields of a tuple |
| CopyBinary.ParseBody | core/copy.rs:125-160 | the loop over tuples ends on every input with what the grammar gives |
| CopyBinary.ParseCopyBinaryFormat | core/copy.rs:117-161 | the same with the optional signature |
| CopyBinary.RowRoundTrip | core/copy.rs:126-180 | one tuple in front of any bytes is read back if and only if it fits; with more than 32767 columns it is refused as having none |
| CopyBinary.NeverSignature | core/copy.rs:119-123 | encoded rows of texts never begin with the signature, whatever follows |
| CopyBinary.CopyRoundTrip | core/copy.rs:117-190 | parsing returns the rows, header or not and whatever follows the trailer, if and only if widths and lengths fit |
| CopyGrammar.ReadInOrder | core/copy.rs:98-114 | counts and lengths are read as signed numbers in network byte order |
| CopyGrammar.WrittenInOrder | core/copy.rs:164-183 | and written so |
| CopyGrammar.FieldIff | core/copy.rs:139-156 | a field is accepted if and only if it is a negative length or a length and that much UTF-8, and refused with each error if and only if the bytes are wrong in that way |
| CopyGrammar.RowsAccepted | core/copy.rs:125-160 | any bytes are accepted as given rows if and only if the grammar has them so |
| CopyGrammar.RowsRefused | core/copy.rs:125-160 | and refused with a given error if and only if that is the first thing wrong |
| CopyGrammar.SignatureIs | core/copy.rs:95 | the signature's eleven bytes |
| CopyGrammar.FileIff | core/copy.rs:117-161 | both for whole files, with the signature or without |
| CopyText.UnescapeCopyField | core/copy.rs:64-92 | the escape loop computes the recursive reading of a field |
| CopyText.UnescapeEscape | core/copy.rs:64-92 | it undoes the escapes of the text format, for every text and every delimiter that is no escape letter or does not show, and keeps a backslash left over at the end |
| CopyText.JoinedLines | core/copy.rs:25 | lines joined by line feeds, alone or after carriage returns, the last with or without one, are the lines of the text |
| CopyText.LinesJoined | core/copy.rs:25 | and every text is its lines, so joined |
| CopyText.SplitJoined | core/copy.rs:36 | the fields of a line have no delimiter in them, and joined by delimiters they are the line |
| CopyText.LinesRead | core/copy.rs:17-61 | for every text: the rows are those of the lines before the end mark, empty ones skipped, unless one has another width; then the error names the first such line and its width |
| CopyText.ParseCopyTextFormat | core/copy.rs:17-61 | the line loop, with the end mark, skipped lines and the error of the first line of another width |
| CopyText.RowReadBack | core/copy.rs:36-57 | the fields of a written row are read as that row if and only if no text looks like the null string |
| CopyText.RowWidth | core/copy.rs:36-44 | a written row has its own number of fields if and only if no field shows the delimiter |
| CopyText.TextRoundTripIff | core/copy.rs:17-61 | for every delimiter and null string without line ends, and lines ended by line feeds, alone or after carriage returns, the last perhaps not at all, written rows are read back as they were if and only if no field shows the delimiter, no text looks like a null, and no line is empty or the end mark |
| CopyText.ComesBackIff | core/copy.rs:17-61 | with an ordinary delimiter and the default null string that is: no text has the delimiter in it, tab and other letter-escaped ones apart, and the row is not one empty text |
| CopyText.DefaultRoundTrip | core/copy.rs:17-61 | with tabs and two or more columns always |
| CopyText.EscapedDelimiterSplits | core/copy.rs:36-44 | an escaped delimiter still splits, and the row is refused as too wide |
| CopyText.CommaSplits | core/copy.rs:36-44 | for instance a comma |
| Catalog.DatabaseCatalog.constructor | core/lib.rs:2707-2713 | indices 0 and 1 are taken from the start |
| Catalog.DatabaseCatalog.AllocateIndex | core/lib.rs:2786-2804 | returns the least clear bit, also when the bitmap grows, and sets only it |
| Catalog.DatabaseCatalog.DeallocateIndex | core/lib.rs:2777-2784 | clears that bit only |
| Catalog.DatabaseCatalog.Insert | core/lib.rs:2746-2762 | keeps bitmap and maps in step and names apart, and uses the least free index |
| Catalog.DatabaseCatalog.Remove | core/lib.rs:2764-2774 | frees the name, its index and its database together, or changes nothing |
| Catalog.DatabaseCatalog.GetDatabaseByName | core/lib.rs:2728-2736 | misses only names that are not attached |
| Bits.FirstZeroBit | core/lib.rs:2807-2813 | the trailing-zero count of the complement is the least clear bit |
| Bits.SetBit | core/lib.rs:2777-2795 | setting and clearing a bit leaves all others |
| Recogniser.CompletesExactly | cli/read_state_machine.rs:166-232 | on every token sequence the machine first reports a complete statement exactly at the end of a trigger's first `; END ;`, or at the first semicolon of anything else |
| Recogniser.CompleteIffScript | cli/read_state_machine.rs:159-232 | it ends complete if and only if the tokens are a sequence of statements |
| Recogniser.EraseFold | cli/read_state_machine.rs:166-232 | whitespace tokens change nothing |
| Tokenizing.Tokenizer.SkipThrough | cli/read_state_machine.rs:83-91 | skips through the next occurrence of a character, or everything |
| Tokenizing.Tokenizer.SkipComment | cli/read_state_machine.rs:134-144 | skips a block comment to its first end |
| Tokenizing.Tokenizer.ReadKeyword | cli/read_state_machine.rs:56-72 | takes the longest word and classifies it regardless of case |
| Tokenizing.Tokenizer.ReadDollarTag | cli/read_state_machine.rs:92-110 | reads the tag of a dollar quote, or finds that it is none |
| Tokenizing.Tokenizer.SkipDollarBody | cli/read_state_machine.rs:111-123 | skips to the matching closing tag |
| Tokenizing.Tokenizer.Next | cli/read_state_machine.rs:78-153 | each call takes one token off the front and ends exactly at the end of the text |
| Tokenizing.ProcessSql | cli/read_state_machine.rs:236-240 | the loop folds all tokens of the text |
| Tokenizing.CompleteText | cli/read_state_machine.rs:159-240 | a text is complete if and only if its tokens are one or more statements |
| Lexemes.LexemeTokens | cli/read_state_machine.rs:74-153 | in front of every text that it fits, a line comment, a block comment, quoted text, a bracketed name and a dollar-quoted body add no token, whatever they contain; a word, a semicolon, a space and any other character add theirs |
| Lexemes.ClassifySpells | cli/read_state_machine.rs:56-72 | a word is a keyword if and only if it spells it in any mix of cases |
| Lexemes.UnclosedTokens | cli/read_state_machine.rs:83-144 | what is not closed has no tokens |
| Lexemes.SpelledTokens | cli/read_state_machine.rs:74-153 | the tokens of a text are those of its lexemes, in order |
| Lexemes.EveryTextIsSpelled | cli/read_state_machine.rs:74-153 | every text is lexemes, each fitting what follows, and perhaps something unclosed |
| Lexemes.CompleteSpelling | cli/read_state_machine.rs:159-240 | so a text is complete if and only if the tokens of its lexemes are one or more statements |
| Lexemes.BlockCommentIff | cli/read_state_machine.rs:134-144 | a comment up to its first end after the opening is skipped if and only if its body does not begin with a slash; what is read otherwise |
| Lexemes.CommentThatIsComplete | cli/read_state_machine.rs:134-144 | a comment that passes for a statement |
| Lexemes.DollarQuoteIff | cli/read_state_machine.rs:111-123 | a dollar quote is skipped if and only if the low bytes of its characters do not show the tag earlier |
| Lexemes.OneByteQuote | cli/read_state_machine.rs:111-123 | with characters of one byte it is skipped up to its own tag |
| Lexemes.DollarQuoteThatIsComplete | cli/read_state_machine.rs:111-123 | two letters that close one |
| LineByLine.LineByLineIff | cli/app.rs:1761-1783 | after a line the tokens of whatever follows are as if it were alone, if and only if the line leaves no comment and no quotation open |
| LineByLine.LinesAreText | cli/app.rs:1769-1775 | lines read from standard input, all but the last leaving nothing open, give the state of the whole text |
| LineByLine.TypedLine | cli/app.rs:1764-1781 | a typed line, read without the line feed that the buffer gets, and what follows it give the state of the buffer |
| LineByLine.TextOverTwoLines | cli/app.rs:1769-1775 | two lines that are a statement together and are not recognised |
| Literals.QuoteWith | cli/app.rs:2200-2224 | the loop doubles quotes and encloses |
| Literals.WriteText | cli/app.rs:1979-1992 | the same for a text value, appended |
| Literals.WriteBlob | cli/app.rs:1993-2000 | two hex digits for each byte, appended |
| Literals.WriteSqlValue | cli/app.rs:1974-2003 | appends the literal of the value |
| Literals.ParseHexBlob | cli/app.rs:2288-2310 | the loop reads pairs of hex digits or refuses |
| Literals.UndoubleDoubled | cli/app.rs:2312-2318 | undoubling quotes undoes doubling them |
| Literals.ParseHexInverts | cli/app.rs:2288-2310 | reading hex undoes writing it |
| Literals.ParseI64Inverts | cli/app.rs:2260-2262 | every 64-bit integer is read back |
| Literals.PrintedValueReadBack | cli/app.rs:2254-2286 | every NULL, integer, text and blob is read back as printed, through the order of the parser's attempts |
| ParameterValues.ParseHexIff | cli/app.rs:2288-2310 | text is read as bytes if and only if it is their hex digits with A to F in either case |
| ParameterValues.TrimIs | cli/app.rs:2255 | what is left between white space |
| ParameterValues.SpaceAround | cli/app.rs:2254-2286 | white space around a value changes nothing |
| ParameterValues.ParseI64Iff | cli/app.rs:2260-2262 | an integer is a sign, perhaps, and digits, with a value of 64 bits, both ways |
| ParameterValues.FloatIff | cli/app.rs:2264-2268 | a float is what Rust documents for one, both ways |
| ParameterValues.UndoubleFirst | cli/app.rs:2312-2318 | up to its first pair of quotes a text stays, the pair becomes one, and so on behind it |
| ParameterValues.UndoubleKeeps | cli/app.rs:2312-2318 | a text without a pair of quotes stays as it is |
| ParameterValues.NumericIff | cli/app.rs:2254-2268 | for every text, when it is NULL, in any mix of cases, an integer or a float, and which |
| ParameterValues.BlobIff | cli/app.rs:2270-2276 | when it is a blob, with either prefix, and which, and when it is refused |
| ParameterValues.TextIff | cli/app.rs:2278-2286 | and when it is text, and which: without its quotes or, if it has no other shape, as it is |
| Literals.QuotedIsInvisible | cli/read_state_machine.rs:83-91 | a quoted string or name in front of any text adds no token |
| Literals.QuotedLeavesState | cli/app.rs:2200-2224 | it leaves the recogniser in whatever state it was |
| Literals.InsertIsOneStatement | cli/app.rs:1871-1881 | every INSERT of a dump is one statement that ends at its last character, whatever name and values contain |
| InsertLines.InsertReadBack | cli/app.rs:1871-1881 | a reader that knows only SQL's quoting gets table and literals in their order back from every INSERT of a dump |
| ApplyWriter.Writer.FindStmtEnd | cli/input.rs:223-240 | the first semicolon before a line end, with the width of that end |
| ApplyWriter.Writer.ExecStmtBytes | cli/input.rs:270-277 | a statement that is not UTF-8 is refused before the target sees it; one that the target rejects has not run |
| ApplyWriter.Writer.FlushCompleteStatements | cli/input.rs:242-252 | runs statement after statement until the first error, and keeps the rest |
| ApplyWriter.Writer.Write | cli/input.rs:291-296 | buffers, then runs what is complete |
| ApplyWriter.Writer.Finish | cli/input.rs:254-268 | runs a last statement that has no line end |
| ApplyWriter.ChunksDoNotMatter | cli/input.rs:242-296 | statements run, errors and what is left depend only on the concatenation of the writes |
| ApplyWriter.FlushRunsStatements | cli/input.rs:242-252 | without an error exactly the statements of the text have run |
| ApplyWriter.FlushStops | cli/input.rs:242-277 | with an error the statements before one have run, that one is not UTF-8 or was rejected, and what follows it is still buffered |
| ApplyWriter.TrailingIff | cli/input.rs:254-268 | there is a last statement if and only if the buffer is one, up to its semicolon, and blanks |
| ApplyWriter.NothingLost | cli/input.rs:223-252 | statements, line ends and the remaining buffer are all bytes received, in order |
| ApplyWriter.DumpReplays | cli/input.rs:223-252 | a dump is run statement by statement if and only if no statement contains a semicolon before a line end |
| DumpText.RowsReplayIff | cli/app.rs:1869-1884 | the INSERT lines of a dump, in UTF-8, are run one for one if and only if no table name and no text has a semicolon before a line end in it |
| DumpText.EndsAlike | cli/input.rs:223-240 | UTF-8 neither hides nor makes such a place |
| DumpText.EncodeIsUtf8 | cli/input.rs:270-274 | no line is refused as not UTF-8 |
| DumpText.Utf8Iff | cli/input.rs:270-274 | bytes pass for UTF-8 if and only if they are the encoding of some text |
| DumpText.CutInTwo | cli/input.rs:223-252 | two texts joined by a semicolon and a line feed, in any table: the two statements that are run instead of the INSERT |
| DumpText.DumpThatDoesNotReplay | cli/input.rs:223-240 | one such INSERT and its two pieces |
| Busy.BusyHandlerState.Reset | core/busy.rs:103-107 | starts the schedule over |
| Busy.BusyHandlerState.Invoke | core/busy.rs:121-140 | which of the three handlers decides and what each changes |
| Busy.BusyHandlerState.InvokeTimeoutHandler | core/busy.rs:145-167 | grants what the tables allow and changes nothing on refusal |
| Busy.BusyHandlerState.GetDelay | core/busy.rs:173-180 | the time left until the deadline, or zero |
| Busy.PriorIsSum | core/busy.rs:77-91 | the table of totals is the sum of the delays, at every iteration |
| Busy.GrantFollowsSchedule | core/busy.rs:145-167 | each grant is the next delay of the schedule, cut off at the timeout |
| Busy.DelaysGrow | core/busy.rs:60-75 | the delays grow from one millisecond to a hundred |
| Busy.WaitsExactly | core/busy.rs:145-167 | after any number of invocations exactly the smaller of timeout and schedule has been granted, refusal comes exactly when the timeout is used up, and then stays |
| Busy.RefusalReachedIff | core/busy.rs:145-167 | every run reaches refusal if and only if the timeout is at most 214 748 363 828 ms |
| Busy.RefusedWithin | core/busy.rs:145-167 | and within one invocation for each millisecond of it |
| Parameters.Parameters.PushIndex | core/parameters.rs:90-99 | records an explicit index once |
| Parameters.Parameters.PushNamedAt | core/parameters.rs:101-131 | names an index unless it has a name |
| Parameters.Parameters.PushName | core/parameters.rs:133-158 | reuses the index of a known name, else takes the next |
| Parameters.EveryRunGood | core/parameters.rs:44-158 | over every run indices are distinct and below the next one, and the count is the largest index mentioned |
| Parameters.RecordedIffMentioned | core/parameters.rs:90-158 | after every run the list has an entry for an index if and only if a mention resolved to it |
| Parameters.FirstNameStays | core/parameters.rs:101-131 | the first mention that names an index gives it its name for good |
| Parameters.NewNameIsNext | core/parameters.rs:133-158 | a new name takes the index after the largest so far |
| Parameters.NamesAreForever | core/parameters.rs:62-131 | a name once resolved keeps its index, and an index its name, through any further mentions |
| Parameters.SameNameSameIndex | core/parameters.rs:133-158 | two mentions of one name are one parameter |

## Left out

- The SQL compiler, the B-tree, the pager, the write-ahead log file and the MVCC store are not part of this model; connections are modelled in WAL mode, page contents do not appear, and a schema is a version and a map of named definitions.
- The main database's own schema, foreign-key counters and prepared-statement generations of a connection.
- The re-preparation of a statement after a schema change by someone else, which drops staged schemas of the databases it uses (core/statement.rs:510-560).
- Statements of one connection run one at a time; a temp DDL statement is one step that changes and flags.
- Locks on the temp database's own pager.
- Registry: encryption checks, in-memory paths and paths without a file identity, which bypass the registry.
- Replication.HandlePullUpdates: frames carry page numbers from 1 and the requested revision is at most the log's last frame; the response's database size and the encoding inside a message are left out.
- Literals.WriteSqlValue: a float is the text that it is printed as, and floats are not read back.
- Literals.ParseHexBlob: the two messages for bad hex are one error.
- Literals.WriteText: text is modelled as characters where the source copies bytes of UTF-8.
- ParameterValues.NumericIff: a float is the text that it is read from; its rounding is not modelled.
- InsertLines.InsertReadBack: asks for at least one value, since every table has a column.
- Literals.InsertIsOneStatement: floats are taken in the shapes that Rust prints them in, without exponent or by name.
- CopyText.TextRoundTripIff: delimiters and null strings with line ends in them, which the format excludes.
- CopyText.ComesBackIff: delimiters with another role in the format (backslash, full stop, escape letters, N) and other null strings, for which the condition stays the one on the written line.
- CopyText.UnescapeEscape: an escape letter as delimiter that shows in what is written, which reading takes for the escape.
- Replication.EncodeResponse: header and pages are byte strings; the encoding inside a message is left out.
- Busy.BusyHandlerState.Invoke: asks that the 32-bit invocation count has not run out where the call counts, which is where the source's addition overflows.
- Catalog.DatabaseCatalog.Insert: asks for a new name, as the source's assertion does.
- Parameters.EveryRunGood: indices are unbounded, where the source stops with a panic at the largest index of its word size.
- The COPY TO writer of the wire server, which does not escape (cli/pg_server.rs:790-827), and the interval formatter.
- Sockets, TLS, HTTP, the wire protocol's messages, the JSON-RPC server, line editing, highlighting and rendering.
- Lookup tables of functions, opcodes, error codes and type names, which would only add easy members.
