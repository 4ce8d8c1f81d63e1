# Pivot: query pipeline, authorization and catalog protocols

A model of the parts of Pivot whose correctness rests on more than one function, and proofs about them.

| files | what they model |
|---|---|
| `LengthPrefix`, `Sorting`, `AuthzModel`, `Policy` | the names things are cached under: length-prefixed pre-images, role tables, rendered subjects and requests, the policy fingerprint |
| `ResultCache`, `Streams`, `LoggedStream`, `Replay`, `Pipeline` | the byte-bounded result cache, the streams that fill it, the replays that serve it, and the pipeline over every interleaving |
| `Lifecycle`, `Governor`, `CancelWatcher` | what an execution holds and how it is logged, the two-level admission, and the cancellation watcher against the connection pool |
| `DecisionCache`, `GroupGraph` | the generation-guarded decision cache, and the bounded walk of the group graph it speeds up |
| `ByteStrings`, `Delimited`, `JsonStrings`, `JsonGrammar`, `JsonExport` | the CSV, TSV and JSON writers against readers of RFC 4180 (section 2) and RFC 8259 (sections 2 to 8) |
| `CatalogModel`, `Relationships`, `Catalog`, `Introspection` | catalog reconciliation: gathering the source's rows, upsert, sweep, diff and report |
| `RateLimit`, `Sessions`, `Lockout` | the token bucket and its sweep, sliding session expiry, lockout doubling |
| `Common` | optional values, cells, columns |

Sequential objects are classes whose methods are tied to functions of the state before the call; the theorems are
lemmas about those functions. Concurrent code is a transition system: one step for each stretch of code no other
goroutine can see the middle of, `Run` folding any sequence of steps (a step that is not possible changes nothing), and
theorems over every run. Histories such as `invalidated`, `log`, `kills` and `past` are written and never decide a step.

`dafny verify dfyconfig.toml` checks the whole project.

What is taken as given: SHA-256 in hex names its input (`IsHash`: injective and never empty); the clock does not go
back; sync times increase; a source reports each table and each column of a table once (where a lemma says
`Distinct`); UUIDs in rendered form hold no `|`, `:`, `#` or `@` (where a lemma says so); a kill has no effect after
the call that sends it has returned; the store upserts by natural key, revives and stamps the row, and its sweep marks
every live row stamped before the sync.

Where the code does less than its comments or names suggest, the exact condition is proved:

* The relationship cross-check is described as the signature of a second sync. Alone it still fires, exactly when a
  relationship lost one column and kept another (`Relationships.CrossCheckFiresExactlyWhen`, with `CompositeKeyTripsIt`).
  The table and column cross-check never fires alone (`Catalog.SweepAndSnapshotAgree`).
* A kill that lands while the source is still deciding whether to answer is logged as an ordinary cancellation
  (`Lifecycle.KillWhileStartingIsLoggedAsCancel`), because that row is finished through the caller's context.
* A lockout spaces the guesses at one address exactly when its logins come one at a time and no write of theirs is
  lost (`Lockout.GuessesAreSpacedExactlyWhen`, over all runs). With two under way any number of guesses can be looked at
  in one moment, because counting a failure lifts the lock until it is set again
  (`Lockout.OverlappingGuessesAreNotSlowed`); with one lost write one guess too many can
  (`Lockout.LostWriteIsNotSpaced`). What is spaced however logins overlap, writes kept, is every other round: a round is
  a stretch with some login of the address under way in which a wrong password was looked at
  (`Lockout.RoundsAreSpaced`). Both count from when the address was last forgotten, by a login or by a sweep; after
  that the threshold but one is open again (`Lockout.SweepForgets`).
* The sweep of idle buckets is invisible, and windows are bounded, exactly when `burst <= rate * bucketTTL`
  (`RateLimit.SweepInvisibleExactlyWhen`, `WindowsBoundedExactlyWhen`); every configured limit meets it.
* A JSON export is UTF-8 exactly when every embedded document written through is; the check that lets one through looks
  at the grammar only (`JsonExport.DocumentIsUtf8ExactlyWhen`, `AnIllEncodedDocumentIsWritten`).
* Session gaps shorter than the idle timeout are not enough to stay signed in: with k touches in a row lost, k + 1 gaps
  and the touch interval together must stay below it (`Sessions.LivesToItsCapExactlyWhen`).
* The order of a relationship listing is decided exactly when none is reported both added and removed
  (`Relationships.ListedOnceExactlyWhenApart`, with `RenumberedKeyIsListedBothWays`): the sort is not stable and the
  two compare as equal. Removed tables and columns are always listed one way (`Catalog.RemovalsAreListedOneWay`).
* The built-in roles are called most privileged first and `Via` the strongest reason, but an editor is listed before an
  analyst, who may do all an editor may and write SQL besides (`AuthzModel.RolesNest`).
* `Truncated` is set for an answer of exactly `limit` rows as well (`Streams.Query`).

## Model

| member | source | states |
|---|---|---|
| Pipeline.CacheIsTransparent | internal/query/executor.go:293-347 | in every reachable state of every interleaving, a hit delivers a prefix (all of it once ended) of the rows of one earlier execution that read its source to a clean end: same standing, connection, statement and row cap, same columns and truncated flag, no invalidation of the connection between the two key derivations, stored at most a TTL before the hit |
| Pipeline.RunKeepsInv | internal/query/cache.go:255-339 | over every run: counters equal the number of invalidations, every stored entry was made by a finished clean execution with that key, every tee either equals what was delivered or was given up |
| Pipeline.SameKeySameQuestion | internal/query/cache.go:201-229 | two executions with one key asked the same question with the same standing under the same generation |
| Pipeline.AskedAgainIsServed | internal/query/executor.go:320-347 | in any reachable state, whatever anybody does between: once an execution at the end of a whole answer that fits the limits is closed under its generation, the same question asked again, its connection not invalidated, is served exactly when an unexpired answer is held, and then with all rows, columns and flag of that execution unless another has stored the same question since |
| Pipeline.AskedInTimeIsServed | internal/query/executor.go:320-347 | and it is held, and served whole, when only time within the time to live passes between |
| Pipeline.ServedExactlyWhenHeld | internal/query/executor.go:320-330 | a lookup is served exactly when an unexpired entry of its key is held, and then by that entry and its origin |
| Pipeline.ClosingStores | internal/query/logged_stream.go:190-216 | closing an execution whose source has ended, whose rows fit both limits and whose generation is current puts in front an entry of its key with all its rows, its columns and flag and a whole time to live, its origin on record, and changes no other execution |
| Pipeline.WholeAnswersAreStored | internal/query/logged_stream.go:190-216 | the same over every run: nothing more is needed of a whole answer that fits than that it was eligible |
| Pipeline.KeyedExactlyWhen | internal/query/cache.go:201-229 | a question has a key exactly when its caller is the system or an actor whose standing could be read |
| Pipeline.AnswersAreDeliveredAgain | internal/query/executor.go:293-347 | from any reachable state: a question not held, asked, missed, opened, read to its end and closed, and asked again within the time to live by anybody it is the same question for, is delivered all the rows of the source, under its columns and flag |
| ResultCache.FitIsLongestPrefix | internal/query/cache.go:318-337 | eviction keeps the longest most-recent prefix that fits, and no longer one would fit |
| ResultCache.StoreKeepsLongestRecentPrefix | internal/query/cache.go:296-339 | a store keeps keys distinct and bytes bounded, is taken exactly when the entry fits both limits, and then keeps the new entry and the longest most-recent part of the others |
| ResultCache.StoreAddsOnlyTheEntry | internal/query/cache.go:296-339 | a store introduces nothing but its entry and displaces only the old entry of its key or the least recent |
| ResultCache.LookupKeepsSound | internal/query/cache.go:255-290 | a lookup answers exactly when an unexpired entry of the key is held, with that entry, and keeps the bounds |
| ResultCache.LookupKeepsTheRest | internal/query/cache.go:255-290 | a lookup takes out nothing but an expired entry of its own key, and puts a hit in front |
| ResultCache.StoredInFront | internal/query/cache.go:296-339 | a store is taken exactly when the entry fits both limits, and is then in front; otherwise nothing changes |
| ResultCache.RunIsLeastRecentlyUsed | internal/query/cache.go:255-339 | after any operations the list is sound and in exactly the order of last use |
| ResultCache.KeyInjective | internal/query/cache.go:201-229 | equal keys mean equal fingerprint, organization, connection, statement, cap and generation |
| ResultCache.Cache.Get | internal/query/cache.go:255-290 | answers exactly when an unexpired entry of the key is held, with it and in front; every other entry stays but an expired one of the key; map, list and byte total stay linked; hits, misses and expiries are counted |
| ResultCache.Cache.Put | internal/query/cache.go:296-339 | the same for a store, with the number of evictions |
| ResultCache.Cache.Evict | internal/query/cache.go:318-337 | the loop that drops from the back ends with exactly the prefix that fits |
| ResultCache.Cache.RemoveLocked | internal/query/cache.go:368-378 | removal keeps map, list and bytes in step |
| ResultCache.Cache.Invalidate | internal/query/cache.go:247-252 | moves one connection's generation on and touches no entry |
| ResultCache.Cache.CountUncached | internal/query/cache.go:360-366 | counts a query that could not be cached, and nothing else changes |
| LengthPrefix.ReadWhatWasWritten | internal/query/cache.go:227-229 | a reader recovers exactly the parts from their length-prefixed concatenation, whatever they contain |
| LengthPrefix.PartsInjective | internal/query/cache.go:201-229 | two pre-images are equal only when their parts are |
| LengthPrefix.SignedDecimalInjective | internal/query/cache.go:201-225 | the decimal rendering of a row cap determines it |
| Policy.FlattenPermissions | internal/policy/policy.go:140-160 | the flattened list is ascending and holds exactly the permissions of the roles held |
| Policy.PermissionsOfIsHeld | internal/policy/policy.go:140-160 | membership in the canonical list is holding the permission, by any role |
| Policy.PreImageInjective | internal/policy/policy.go:176-193 | the fingerprint's pre-image is uniquely decodable into organization and permissions |
| Policy.FingerprintIsStanding | internal/policy/policy.go:101-193 | two resolved callers share a fingerprint exactly when they have the same organization and hold the same permissions (or are both the system) |
| Sorting.SortedDependsOnMembersOnly | internal/policy/policy.go:140-160 | sorting forgets order and repetition |
| Sorting.LessIsLexicographic | internal/policy/policy.go:140-160 | the order is that of the first byte in which two strings differ |
| LoggedStream.RowFollows | internal/query/logged_stream.go:85-130 | the copy is exactly what was delivered as long as the answer is eligible and fits, and is given up for good from there on |
| LoggedStream.EstimateAdds | internal/query/logged_stream.go:222-251 | sizes add up cell by cell |
| LoggedStream.LoggedStream.Next | internal/query/logged_stream.go:85-100 | counts and copies what the source delivered; ended without error is remembered as exhausted |
| LoggedStream.LoggedStream.TeeCurrent | internal/query/logged_stream.go:110-128 | the copy is dropped, and never resumed, once the budget is exceeded |
| LoggedStream.LoggedStream.Close | internal/query/logged_stream.go:136-216 | keeps the answer at most once and exactly when it was eligible, was read to a clean end, closed without an error and fits both limits: in front of the cache is then all of it, with its columns and flag; otherwise the cache is as it was |
| LoggedStream.LoggedStream.Store | internal/query/logged_stream.go:190-216 | what the cache, the status and the copy are afterwards, in each of the cases |
| Streams.SqlStream.Next | internal/connectors/stream.go:117-157 | rows come in order, none skipped, every cell in its place and byte slices as strings, up to the cap; when it says no, why is settled: failure, end, or cap, with truncated exactly when the source has at least the cap |
| Streams.Query | internal/connectors/sqlbase.go:341-366 | succeeds exactly when no failure lies within the cap, with the first `min(limit, n)` rows cell by cell and truncated exactly when `n >= limit` |
| Streams.Batches.Next | internal/query/arrow.go:88-123 | batches handed out are full but the last, none empty, and concatenate to a prefix of the delivered rows, all of them when it ended without failure |
| Streams.Batches.Fill | internal/query/arrow.go:88-110 | a batch is what comes next; a row that does not convert discards it and leaves the earlier ones a prefix |
| Streams.Collect | internal/query/arrow.go:229-257 | returns exactly when the source is clean, every row converts and no look at the context, one before each batch, finds it canceled; then every delivered row once, in order, in full batches but the last |
| Streams.ChunkCount | internal/query/arrow.go:229-257 | how many batches a number of rows makes |
| Replay.Interleave | internal/query/cache.go:392-456 | any number of readers advancing and closing while anybody overwrites any slice ever handed out, current or kept from before its reader moved to a larger buffer, in any order: each read sees what it would see alone, and no stored row changes |
| Replay.EachSeesItsNext | internal/query/cache.go:415-432 | in any such interleaving a reader that has asked k times before sees row k of its result, and nothing after the last or once closed |
| Replay.Replay.Next | internal/query/cache.go:415-432 | hands out a copy of the next stored row in a buffer of its own |
| Replay.TeeFromReusedBuffer | internal/query/logged_stream.go:110-128 | copies taken from a buffer the driver reuses hold each row as it arrived |
| Lifecycle.ResourcesAreConserved | internal/query/executor.go:293-603 | in every reachable state slots and connectors held and monitor entries are exactly those of the executions at a point that holds them, and rows say running exactly while an ending is owed or its write was lost |
| Lifecycle.AtRestOnlyOpenExecutionsHold | internal/query/executor.go:517-603 | between statements slots, connectors and registrations are exactly the misses being read, and running rows exactly the open executions and lost writes; a hit holds only its row |
| Lifecycle.CountsNeverNegative | internal/query/logged_stream.go:136-178 | nothing is released that was not held, however often Close is called |
| Lifecycle.OutcomeIsTheFirstCause | internal/query/executor.go:613-672 | a finished row says succeeded exactly when neither stream nor close failed, killed exactly when it failed, got a stream, and the first cancel before the row was finished was a kill; a hit always succeeds |
| Lifecycle.FinishRecordsTheFirstCause | internal/query/executor.go:613-672 | over every run the row says what the steps so far make of it: of the departures, kills and closings of a query the first, and of the failures of its stream and its close the first |
| Lifecycle.FirstKillIsLogged | internal/query/executor.go:633-645 | a kill that lands before anything else has ended the context is what the row of a query that failed of it says |
| Lifecycle.AKillReaches | internal/query/monitor.go:83-99 | a query that has been sent and not let go of can be looked up and canceled |
| Lifecycle.WaysOutEnd | internal/query/logged_stream.go:136-178 | every way out ends by its own statements |
| Lifecycle.FinishedRowsAreFinal | internal/query/logged_stream.go:136-160 | continuing a run never changes a finished row, and never displaces the first cause |
| Lifecycle.LateKillChangesNothing | internal/query/monitor.go:83-99 | a kill that lands after its caller has left, by the order of the steps, is never what the row says |
| Lifecycle.KillWhileStartingIsLoggedAsCancel | internal/query/executor.go:564-572 | a run in which a kill stops a query being started is logged as canceled |
| Lifecycle.RegisteredIsDerived | internal/query/monitor.go:43-58 | the registry only ever names queries that have a context of their own |
| Governor.SlotsAreExact | internal/query/governor.go:138-236 | in every reachable state each semaphore's count is the number of queries holding it and within its limit |
| Governor.LimitsHold | internal/query/governor.go:138-172 | running queries of a user, and on a connection, never exceed the limits |
| Governor.OnlyRunningHoldsConnections | internal/query/governor.go:138-172 | a connection's slots are held by running queries only, so a query waiting on its own limit holds none |
| Governor.ReleaseNeverBlocks | internal/query/governor.go:192-219 | every receive of a release finds a value |
| Governor.AdmittedExactlyWhenRoom | internal/query/governor.go:138-203 | a send, first or waiting, succeeds exactly when fewer than the limit hold the slot, and otherwise waits |
| Governor.RoomIsEnough | internal/query/governor.go:138-172 | a query that arrives when there is room in both runs after two steps |
| Governor.GivingUpEnds | internal/query/governor.go:138-172 | a wait that is given up ends in a refusal, with the slot given back |
| Governor.NothingLeaks | internal/query/governor.go:138-219 | when all queries are finished every semaphore is empty |
| Governor.ConnectionWaitHasMover | internal/query/governor.go:192-219 | while somebody waits for a connection, that query or one running on the connection has a step, not a timeout, that brings it nearer its end |
| Governor.NoDeadlock | internal/query/governor.go:138-219 | while a query is unfinished some query has a step, not a timeout, after which it is strictly nearer its end |
| Governor.UserKeysName | internal/query/governor.go:138-172 | a user's channel belongs to one user and connection |
| Governor.ConnectionKeysName | internal/query/governor.go:138-172 | a connection's channel belongs to one connection |
| CancelWatcher.KillsStopOnlyTheirOwn | internal/connectors/sqlbase.go:445-517 | over every run each kill the server acted on stopped exactly the query whose watcher sent it |
| CancelWatcher.KillInFlightIsOwn | internal/connectors/sqlbase.go:479-517 | a kill in flight names a session its query still holds |
| CancelWatcher.CanceledIsKilled | internal/connectors/sqlbase.go:479-517 | from any reachable moment at which a query is watched and its context has ended, the watcher sees it and the server stops exactly that query |
| CancelWatcher.BorrowedIsWatched | internal/connectors/sqlbase.go:445-517 | a query that gets a connection is watched until its context ends |
| CancelWatcher.GoneOnlyWhenDoneOrKilled | internal/connectors/sqlbase.go:479-517 | over every run a watcher stops watching only when the query is done or its kill was sent |
| CancelWatcher.KillsOnlyWhenEnded | internal/connectors/sqlbase.go:479-517 | over every run a watcher kills only after its context ended and it saw that |
| CancelWatcher.ReleaseCanProceed | internal/connectors/stream.go:177-194 | while a release waits, its watcher has a step that needs nobody else, or the connection can go back |
| CancelWatcher.NothingDelaysRelease | internal/connectors/sqlbase.go:479-517 | no step of anybody takes a waiting release further from its end |
| CancelWatcher.ReleaseEnds | internal/connectors/stream.go:177-194 | from any reachable moment at most two watcher steps and one of its own end a release with the connection back in the pool |
| CancelWatcher.UseEnds | internal/connectors/stream.go:177-194 | and so does the use of any connection once its query closes the channel |
| DecisionCache.NoAnswerPredatesInvalidate | internal/authz/cache.go:98-256 | a Check or Grants begun after an Invalidate answers from graph reads begun after it, hit or miss, with the value those reads found; a hit is for the same plain question, a decision younger than the TTL, a standing no older |
| DecisionCache.RunKeepsInv | internal/authz/cache.go:98-256 | every remembered answer was read under the current generation and expires a TTL after it was stored |
| DecisionCache.RunKeepsFound | internal/authz/cache.go:98-256 | over every run everything remembered or returned is the value of the walk on record for it |
| DecisionCache.HitsExactlyWhenRemembered | internal/authz/cache.go:182-241 | a call is answered without a walk exactly when an unexpired answer is remembered under its key, and with that answer |
| DecisionCache.AskedAgainIsAnswered | internal/authz/cache.go:98-256 | once a walk under the current generation is stored, its question is answered without another for less than a TTL, whatever happens short of an invalidation |
| DecisionCache.PlainKeysInjective | internal/authz/cache.go:182-225 | keys of plain questions name them, decisions and standings alike |
| DecisionCache.Cache.Invalidate | internal/authz/cache.go:130-140 | moves the generation on and forgets everything |
| DecisionCache.Cache.Lookup | internal/authz/cache.go:227-241 | a decision is served strictly before it expires |
| DecisionCache.Cache.LookupGrants | internal/authz/cache.go:190-201 | a standing is served up to and including its expiry |
| DecisionCache.Cache.Store | internal/authz/cache.go:244-256 | an answer computed under an older generation is not remembered |
| DecisionCache.Cache.StoreGrants | internal/authz/cache.go:204-216 | the same for standings |
| GroupGraph.Expand | internal/authz/graph.go:150-202 | ends on every graph; succeeds exactly when every reachable group is read and within nine links of the direct ones; then returns the user and each reachable group's members, each once |
| GroupGraph.Level | internal/authz/graph.go:172-200 | one level extends the seen set to exactly the groups within one more link, and collects each new group once |
| GroupGraph.Finished | internal/authz/graph.go:172-200 | when a level adds nothing the listed groups are the whole closure |
| GroupGraph.ClosedLevelIsAll | internal/authz/graph.go:172-200 | a level that adds nothing has reached everything reachable, cycles included |
| GroupGraph.RelationsOn | internal/authz/store.go:43-94 | for any subjects: an error exactly when an id of the first user or the object is not a UUID or the read fails, otherwise exactly the relations of fetched rows whose subject reads as one of these |
| GroupGraph.NarrowingIsExact | internal/authz/store.go:70-94 | with plain ids, comparing rendered forms over fetched rows loses nothing held and admits nothing else |
| GroupGraph.Explain | internal/authz/graph.go:72-140 | for any request: allowed exactly when the subject stands there with a granting role; Via is the first such role in the order of the built-in roles; the subjects, relations and granting roles listed are exactly those; unknown permission and unreadable or too deep graphs are the only errors |
| GroupGraph.FirstHeld | internal/authz/graph.go:110-135 | the first of the granting roles that is held, if any |
| GroupGraph.Grants | internal/authz/graph.go:230-262 | for any subject: the ascending list of exactly the relations it stands with, or an error exactly when the graph cannot be resolved |
| GroupGraph.StandingIsHolding | internal/authz/store.go:43-94 | with plain ids, standing is holding: an identity speaking for the subject holds the relation in a row that is fetched |
| AuthzModel.NobodyGrantsOnlyUnknown | internal/authz/model.go:221-235 | only an unregistered permission is granted by no role |
| AuthzModel.GrantingInOrder | internal/authz/model.go:221-231 | the granting roles stand in the order of the built-in roles |
| AuthzModel.RolesNest | internal/authz/model.go:71-201 | what the roles allow nests, admin over analyst over editor over viewer, which is not the order they are listed in |
| AuthzModel.ParseRenderedSubject | internal/authz/model.go:267-318 | parsing a rendered subject gives it back exactly when it is plain |
| AuthzModel.ParseRenderedObject | internal/authz/model.go:289-296 | parsing a rendered object gives it back exactly when type and id are present and the type holds no colon |
| AuthzModel.RenderInjective | internal/authz/model.go:267-282 | plain subjects render apart |
| AuthzModel.RequestRenderInjective | internal/authz/authz.go:45-47 | plain requests share a rendering only when they ask the same |
| Delimited.ExportReadsBack | internal/export/delimited.go:30-100 | the written file reads back, under RFC 4180 with unquoted empty as NULL, as the header and one record per row, each cell in its place and NULL where the row had none, exactly when there is a column |
| Delimited.ReadDocument | internal/export/delimited.go:30-100 | any table reads back as itself but for empty rows, which read as one NULL |
| Delimited.TableReadsBackExactlyWhen | internal/export/delimited.go:30-100 | a table is recovered exactly when no row is empty |
| Delimited.DifferentTablesDifferentFiles | internal/export/delimited.go:30-154 | two tables without empty rows that share a file are equal, down to a NULL against an empty string |
| Delimited.SameFileExactlyWhen | internal/export/delimited.go:30-154 | any two tables are written as the same bytes exactly when they differ at most by an empty row against one of one NULL |
| Delimited.ReadCell | internal/export/delimited.go:105-154 | a written cell is read back whole and the reader stops at its separator |
| Delimited.BareExactlyWhen | internal/export/delimited.go:105-154 | a value is written unquoted exactly when it is not empty and holds no separator, quote or line break |
| Delimited.WriteDelimited | internal/export/delimited.go:30-100 | the bytes are those of the table model and read back so, and the count is the number of rows |
| Delimited.Buffer.WriteField | internal/export/delimited.go:105-138 | the cut-at-each-quote loop writes the field with every quote doubled |
| Delimited.Buffer.WriteRow | internal/export/delimited.go:62-92 | a record as wide as the header, with NULL for what did not arrive |
| JsonStrings.AppendJsonString | internal/export/json.go:226-277 | the run-copying loop appends the quoted literal of the string |
| JsonStrings.StringRoundTrip | internal/export/json.go:226-277 | the literal decodes to the input with each undecodable byte replaced, and decoding stops at its closing quote |
| JsonStrings.EscapedIsValid | internal/export/json.go:226-277 | the literal is valid UTF-8 whatever was written |
| JsonStrings.SanitizedKeepsValid | internal/export/json.go:226-277 | what comes back is the input exactly when the input was valid UTF-8 |
| JsonExport.DocumentParses | internal/export/json.go:29-105 | the document parses to an array of one object per row: under each column name, in order, the value the cell in its place stands for, and null where the row has none |
| JsonExport.CellReads | internal/export/json.go:120-202 | a written cell reads as what it stands for and stops at the separator |
| JsonExport.EmbeddedReads | internal/export/json.go:180-202 | a document put where a value goes reads as it did on its own |
| JsonExport.DocumentIsUtf8ExactlyWhen | internal/export/json.go:180-202 | the document is UTF-8 exactly when every embedded document written through is |
| JsonExport.AnIllEncodedDocumentIsWritten | internal/export/json.go:180-202 | one that is not can be written through |
| JsonExport.WriteJson | internal/export/json.go:29-105 | the buffer loops write the document of the text model, which reads so, and count its rows |
| JsonGrammar.ValueExtends | internal/export/json.go:180-202 | what a value reads as does not depend on what follows it, numbers apart |
| CatalogModel.ListingIsUnique | internal/catalog/snapshot.go:120-158 | two listings in order of the same changes, no two of them at one place, are equal |
| CatalogModel.ListedOnceExactlyWhen | internal/catalog/relationships.go:240-253 | the order decides a listing exactly when no two changes are at one place |
| CatalogModel.OrderedSorts | internal/catalog/relationships.go:240-253 | ordering keeps every change and puts them by schema, table and name |
| CatalogModel.NamesCount | internal/catalog/sync.go:229-243 | naming one to one keeps the count |
| Catalog.Sync | internal/catalog/sync.go:191-247 | what a sync leaves stored and reports on each path: nothing written if the source was not read, no sweep if its relationships were not, and otherwise the whole reconciliation and its whole report |
| Catalog.ReconcileTables | internal/catalog/sync.go:207-215 | every reported table and column recorded and compared with the snapshot, and marked seen |
| Catalog.ReconcileColumn | internal/catalog/sync.go:300-350 | records the column and reports what differs from what was known |
| Catalog.Sweep | internal/catalog/sync.go:222-243 | lists exactly the missing, in order, and a disagreement exactly when the counts differ |
| Catalog.Snapshot.constructor | internal/catalog/snapshot.go:48-88 | the index by name holds exactly what was stored, columns found through their tables' ids |
| Catalog.Snapshot.ListMissing | internal/catalog/snapshot.go:120-158 | every live object not seen, once, in order |
| Catalog.RemovalsAreListedOneWay | internal/catalog/snapshot.go:120-158 | the removals listed are a function of what was stored and what is reported; map iteration order does not show |
| Catalog.DescribesExactlyWhatMoved | internal/catalog/sync.go:361-390 | there is something to say exactly when source type, canonical type or nullability moved |
| Catalog.DescribesEachMove | internal/catalog/sync.go:361-390 | and it names each that moved, with what it was and what it is |
| Catalog.LiveIsWhatTheSourceReports | internal/catalog/sync.go:191-247 | after a sync the live tables and columns are exactly those reported, with the reported shapes |
| Catalog.RowsStay | internal/catalog/sync.go:191-247 | no row is forgotten: a table keeps its id, and what is not reported keeps what was known, marked with the time of the sync if it had been live |
| Catalog.TablesSaidExactly | internal/catalog/sync.go:250-298 | a table is reported added exactly when reported and not live, removed exactly when live and not reported, never changed |
| Catalog.ColumnsSaidExactly | internal/catalog/sync.go:300-350 | a column is reported added, removed or changed exactly when due |
| Catalog.DetailsSaidExactly | internal/catalog/sync.go:250-390 | the detail of every change: whether an addition came back, and what moved |
| Catalog.EachIsSaidOnce | internal/catalog/sync.go:207-215 | no two differences reported of the source are about one thing |
| Catalog.ReportAccountsForTheDifference | internal/catalog/sync.go:191-247 | what was live, with the reported additions and without the reported removals, is what is live |
| Catalog.SweepAndSnapshotAgree | internal/catalog/sync.go:229-243 | alone, the sweep marks as many rows as are named |
| Catalog.AloneReportsTell | internal/catalog/sync.go:191-247 | alone, the report tells of tables and columns exactly and carries no disagreement |
| Catalog.SecondSyncReportsNothing | internal/catalog/sync.go:191-247 | after a sync nothing the same source reports differs from what is stored, and nothing stored is missing from it |
| Catalog.SecondReportIsEmpty | internal/catalog/sync.go:191-247 | the report of a second sync of the same source is empty: no table, column or relationship change and no disagreement, with relationships declared or unavailable |
| Relationships.Reconcile | internal/catalog/relationships.go:57-136 | what is stored and reported for readable, unavailable and broken sources |
| Relationships.LiveKeysAreTheReported | internal/catalog/relationships.go:57-136 | after a sync the live columns of relationships are exactly those reported |
| Relationships.StoredAsReported | internal/catalog/relationships.go:57-136 | each reported column is stored as last reported; an unreported one keeps what it was, marked if it had been live |
| Relationships.CrossCheckFiresExactlyWhen | internal/catalog/relationships.go:115-133 | alone, the two counts differ exactly when a relationship lost a column and kept another |
| Relationships.WholeRelationshipsAgree | internal/catalog/relationships.go:187-204 | for relationships wholly seen or wholly gone the counts agree |
| Relationships.CompositeKeyTripsIt | internal/catalog/relationships.go:187-204 | a two-column key that loses one column is counted twice and marked once |
| Relationships.ReportAccountsForTheDifferenceExactlyWhen | internal/catalog/relationships.go:216-238 | the reported relationships account for the difference exactly when none reported removed is still declared |
| Relationships.ListedOnceExactlyWhenApart | internal/catalog/relationships.go:216-253 | the listing of relationship changes is decided by what was stored and declared exactly when none is reported both ways |
| Relationships.RenumberedKeyIsListedBothWays | internal/catalog/relationships.go:216-253 | a key whose one column moved to another ordinal is reported both ways |
| Relationships.SecondSyncIsQuiet | internal/catalog/relationships.go:57-136 | a second sync of the same declarations reports nothing |
| Introspection.Introspect | internal/connectors/sqlbase.go:293-326 | gathered tables stand for exactly the rows: each column in its place came from the row in its place, none is left over; none is empty and none goes on in the next |
| Introspection.DistinctExactlyWhenTogether | internal/connectors/sqlbase.go:286-312 | no table is reported twice exactly when each table's rows arrive together |
| Introspection.GatheringIsUnique | internal/connectors/sqlbase.go:293-326 | rows determine the tables gathered from them |
| Introspection.GroupForeignKeys | internal/connectors/connectors.go:398-433 | one relationship per name and table, leading where its first key does, with every key's columns paired in their place |
| Introspection.GroupsAreTheRelations | internal/connectors/connectors.go:398-433 | every pair is in exactly one relationship, no two relationships merge, and they stand in the order they are first seen |
| RateLimit.Limiter.Allow | internal/api/ratelimit.go:94-121 | the locked update answers and leaves what the bucket model says |
| RateLimit.Limiter.SweepLocked | internal/api/ratelimit.go:126-138 | the loop drops exactly the buckets idle longer than the TTL, at most once an interval |
| RateLimit.SweepInvisibleExactlyWhen | internal/api/ratelimit.go:94-138 | every call sequence over every set of keys is answered as by a limiter that never sweeps, exactly when the burst refills within the TTL |
| RateLimit.ConfiguredLimitsHideTheSweep | internal/api/ratelimit.go:94-138 | every limit the server configures is such a limit |
| RateLimit.WindowsBoundedExactlyWhen | internal/api/ratelimit.go:94-138 | one key's allowed requests in every window are at most the burst and the rate times its length, exactly then too |
| RateLimit.AllowedExactlyWhenWindowsFit | internal/api/ratelimit.go:94-138 | when the burst refills within the TTL, a request is allowed exactly when every window that ends with it stays within the burst and the rate times its length |
| RateLimit.WaitIsEnough | internal/api/ratelimit.go:94-121 | a denied request repeated after the returned wait is allowed, whatever other keys do meanwhile |
| RateLimit.WaitIsExact | internal/api/ratelimit.go:94-121 | in every reachable state and under the same condition, it is allowed once the wait is over and not before |
| Sessions.Service.StartSession | internal/auth/service.go:233-281 | only an active user gets a session, unrevoked, idle and absolute expiry counted from now |
| Sessions.Service.Authenticate | internal/auth/service.go:341-389 | accepts exactly a stored session that is not revoked and has both expiries ahead, and slides the idle one when due and written |
| Sessions.NothingIsAcceptedExpired | internal/auth/service.go:341-389 | over every interleaving of requests, late and failed touches, revocations and sweeps, a token is accepted only before its absolute expiry and within the idle timeout of its start or an earlier accepted request |
| Sessions.IdleSessionIsOver | internal/auth/service.go:341-389 | after a gap of the whole idle timeout no later request is ever accepted |
| Sessions.RevokedIsOver | internal/auth/service.go:341-389 | over every run, once a stored session is revoked no later request of its token gets anywhere, and no touch that lands later accepts an earlier one |
| Sessions.RequestIsAnswered | internal/auth/service.go:341-389 | one request with nothing in between is accepted exactly when its session is live, and slides it when due and written |
| Sessions.SweepSignsNobodyOut | internal/auth/service.go:523-539 | a sweep drops only sessions that would not be accepted again |
| Sessions.LivesToItsCapExactlyWhen | internal/auth/service.go:341-389 | used at gaps of at most g, with at most k touches in a row lost, a session is accepted at every use before its absolute cap and at none after, exactly when (k + 1) * g and the touch interval stay below the idle timeout or the cap is no later than it |
| Sessions.WrittenTouchesExactlyWhen | internal/auth/service.go:341-389 | with every touch written, exactly when a gap and the touch interval stay below it |
| Lockout.LockoutFor | internal/auth/service.go:303-315 | the doubling loop with its early stop returns `min(base * 2^excess, cap)`, for every policy validation admits; for one it rejects, the base over the cap, exactly from the second lockout on |
| Lockout.WindowDoubles | internal/auth/service.go:303-315 | the first window is the base and each is twice the one before, under the cap |
| Lockout.Service.Login | internal/auth/service.go:134-220 | one login alone, for every way it can go: a lock or an account that cannot be read is an error and counts nothing, a locked address is refused untouched, a wrong password recorded, a right one clears the record; either write may fail and changes no answer |
| Lockout.Service.RecordFailure | internal/auth/service.go:289-320 | counts the failure and locks for the window from the threshold on, with what is left when either write fails |
| Lockout.Service.Sweep | internal/auth/service.go:523-539 | drops exactly the records older than what is retained and not under a lock |
| Lockout.WindowGrows | internal/auth/service.go:303-315 | more failures never shorten the window |
| Lockout.StepsAreLogin | internal/auth/service.go:134-220 | the steps of one login taken with nothing in between leave the record as the method does, and nothing under way |
| Lockout.RunKeepsRounds | internal/auth/service.go:134-320 | over every run: once no failure is owed its count or its lock, both are on record for the last round; a login let in before a round opens began after that lock |
| Lockout.RunKeepsAlone | internal/auth/service.go:134-320 | over every run with logins of an address one at a time: the count and the lock of the last guess are on record, or owed by the one login under way, which was let in after the lock before had passed |
| Lockout.RoundsAreSpaced | internal/auth/service.go:134-320 | in every run without a lost write, from the threshold on the first guess of each round of an address is of a login begun at least a window after the round before began, and each round begins after the login that made the first guess of the one before |
| Lockout.GuessesAreSpacedExactlyWhen | internal/auth/service.go:134-320 | over all runs with at most n logins of an address under way and at most l of its writes lost, every wrong password looked at from the threshold on is of a login begun at least a window after the one before, exactly when n is 0, or n is 1 and l is 0 |
| Lockout.SerialGuessesAreSpaced | internal/auth/service.go:134-320 | the half of it that holds: one at a time and nothing lost, whatever is abandoned, cleared or swept in between |
| Lockout.LostWriteIsNotSpaced | internal/auth/service.go:289-320 | a run, one login at a time, in which one failure is not counted and more passwords than the threshold are looked at in one moment |
| Lockout.OverlappingGuessesAreNotSlowed | internal/auth/service.go:134-320 | for any m a run with at most two logins under way and no write lost in which m + 1 wrong passwords are looked at in one moment |
| Lockout.SweepForgets | internal/auth/service.go:523-539 | only a record older than what is retained and not under a lock is forgotten; the threshold but one can then be guessed at once, one login after another |
| Lockout.GuessingIsSlow | internal/auth/service.go:134-320 | in every run without a lost write, from the threshold on k more wrong passwords looked at take at least k base windows when logins of the address come one at a time, and 2 * k more rounds do however they overlap |

## Left out

- HTTP, middleware, cookies, configuration, the command line and the web frontend: plumbing around what is modelled.
- SQL text, DSNs, drivers and their error classification: they depend on servers that cannot be seen; sources are scripts of rows and failures.
- Argon2, AES, SHA-256, OIDC verification and token generation: foreign calls; only that a hash names its input is used.
- Metrics, tracing and logging calls: no effect on results.
- The store behind the catalog, sessions and query log: the contracts the core relies on are written as functions; transactions and store errors in the middle of a sync are not.
- `Monitor` as an object: it is the registry of `Lifecycle`, because `Kill` looks a cancel up under its lock and calls it outside.
- The supervisor's polling loops, heartbeats and `IsStale`: kills reach the registry as steps at any time instead.
- The event bus that calls `Invalidate`: invalidations are steps at any time.
- `effectiveTimeout`, `configFor` and the row cap chosen by `plan`: single expressions; a question carries the settled cap.
- Deadlines as a cause of their own: they cancel like a caller leaving.
- FIFO order of waiters on a channel: any waiter may be next, which only allows more runs; a wait that times out is a step that may happen at any moment.
- Generation counters wrapping at 64 bits: naturals.
- Float rounding in the limiter and whole nanoseconds of the wait, and `Retry-After`: reals, and the wait property is about `Allow`.
- Durations near the 64-bit limit in the lockout doubling: unbounded naturals.
- Write errors of the exporters' destination, and what a failed source leaves unflushed: the writers fill a buffer.
- How a float, a time or a decimal is spelled by the exporters: a cell arrives spelled, and numbers are required to be spelled as JSON numbers.
- The nesting limit of the JSON check an embedded document passes: the check is any predicate that admits only documents.
- `text` of the delimited export: a cell arrives as NULL or as bytes.
- Non-canonical spellings a UUID parser accepts, and the all-zero UUID as a user id: `uuid` is a predicate of the text, and the first user named is the one fetched.
- Arrow schemas and memory: a row converts or it does not.
- `Explain`'s bypass of the decision cache: it does not touch the cache.
- Comments and positions of catalog columns: stored, never compared.
- A column or constraint with an empty name sorting together with its table: its place is told apart here.
- The database clock that stamps a new session's last use: taken as the server's own.
- Accounts and organizations: a login is of an address, and `Found` is all that looking up and verifying finds.
- Sessions.LivesToItsCapExactlyWhen: a touch that lands after a later use is left to `NothingIsAcceptedExpired`; here each use ends before the next.
- Lockout.RoundsAreSpaced: promises nothing of an address one of whose writes was lost since it was last forgotten; by `LostWriteIsNotSpaced` that can let guesses through together.
- Lifecycle.ResourcesAreConserved: a crash of the process between two statements is not a step.
- Replay.Interleave: acts of different readers are taken one after another, not at the granularity of memory accesses.
