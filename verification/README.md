# EndoCore: a model and its proofs

EndoCore is a Python web framework with an object-relational mapper. This project models the parts
of it where correctness is hardest to see: transactions over a connection pool, the query compiler,
the migration engine, an idempotent purchase protocol, and several structures that promise to agree
with something simpler. Each part has an independent meaning to be measured against, and the main
results hold for every input, every run or every interleaving.

## What is modelled

**Transactions** (`Savepoints`, `ConnectionPool`, `PoolUse`). A block is a tree of statements, raises,
nested `atomic()` blocks and `try` blocks; `Ideal` says what the nesting promises. The session keeps a
stack of savepoints whose names are reused at the same depth, and a failed block rolls back to its
savepoint without releasing it. The stale savepoints are exactly `Leftovers`, and a body ends in the
promised database whatever is already on the stack. The pool is a state machine over any number of
contexts, with connections that break and contexts that copy tokens: every open connection always has
exactly one holder, and a statement runs on a pinned connection only with that live transaction's
token. A connection stays open until it is given back broken, a root block keeps its connection to its
end, and no wait for a connection is for ever (`PoolUse`).

**Query compiler** (`Like`, `SqlLanguage`, `QueryCompiler`, `Statements`, `RelationJoins`,
`SqlCompiler`). SQL is a token sequence, read by a recursive-descent parser with SQL's precedence and
evaluated in the three-valued logic of section 8.12 of ISO/IEC 9075:1992 (LIKE with ESCAPE is section
8.5, LEFT JOIN section 7.5); parameters are taken left to right. A `Q` tree, an F expression, a whole
UPDATE and a whole aggregate mean after that round trip what they mean directly. Relation paths become
LEFT JOINs that give one joined row per base row, in which an alias is the row reached by following
the foreign keys. `SqlCompiler` has the loops and the mutable resolver of the source.

**Migrations** (`Schemas`, `Migrations`, `SchemaDiff`, `MigrationEffects`, `MigrationRows`, `Renames`,
`RenameUndoing`, `FileNames`, `StringOrder`, `MigrationHistory`, `MakingMigrations`, `Migrator`). A
schema is tables with columns, and indexes; DDL statements have a small-step meaning on schemas and on
databases with rows. The diff of two snapshots goes to the new schema and back to the old one, exactly
when two conditions a caller can check hold, and keeps the rows. With renamed columns in front the
written program still goes there under those conditions, and comes back exactly when no rename
respelled anything that undoing the diff makes again (`Renames`, `RenameUndoing`). The history machine
runs `makemigrations`, `makedatamigration`, `migrate` and `rollback`, each of which may fail part way;
`makemigrations` followed by `migrate` takes the database to the models exactly when the written
program works (`MakingMigrations`).

**Idempotent purchases** (`Shop`, `ShopKeys`, `ShopReasons`, `ShopProgress`, `ShopService`). Any
number of purchases and webhook calls, interleaved statement by statement with row locks and
uncommitted writes, crashing anywhere. The books balance, a key is claimed once, every answer had its
reason when it was given (`ShopReasons`), and every request can be brought to its end
(`ShopProgress`).

**Structures that agree with something simpler.** The route trie, changed in place, against narrowing
the plain list of added handlers, and that against what a request is meant to find (`Routes`,
`Registry`, `RouteMatching`); eager loading against lazy queries (`Prefetch`, `Prefetcher`,
`Hydration`); the swept rate limiter against one that never sweeps (`RateLimit`); broadcasts over
several workers against exactly-once delivery, which the workers' own steps always complete (`PubSub`,
`BroadcastProgress`, `WebSocketManager`); the multipart parser against printing (`Multipart`,
`FormParser`); the memoising dependency resolver against plain evaluation (`Dependencies`).

## Where the code does less than it promises

- A forward migration fails exactly when an index that the new snapshot drops stands on a table that is
  dropped or rebuilt or on a column that is dropped: by then the index has gone, and DROP INDEX finds
  nothing. Removing an indexed field, or a model with an index, is such a migration
  (`MigrationEffects.DiffOutcome`, `MigrationEffects.IndexedColumnCannotBeDropped`). Otherwise it runs,
  but leaves a kept index on such a table missing, and an index or through table redefined under the
  same name as it was; it reaches the new schema exactly when there is neither
  (`MigrationEffects.DiffWorksExactlyWhen`).
- Renaming an indexed column migrates, and cannot be rolled back: the old index is made again while the
  column still has its new name. In general a program with renames comes back exactly when no dropped or
  rebuilt table, dropped through table or dropped index was respelled by a rename
  (`RenameUndoing.UndoingWorksExactlyWhen`, `RenameUndoing.IndexedColumnRenameCannotBeUndone`).
- Migration names sort as their numbers exactly up to 9999 (`FileNames.NumericExactlyUpTo9999`).
- An idempotency key whose request crashed after the claim, even after the charge was committed, or
  named an invalid product id, is never answered: every retry is told to come back later
  (`ShopKeys.AbandonedForGood`, `ShopKeys.UnluckyCustomer`).
- All handlers share the remembered singletons, and a singleton factory that reads the request answers
  later requests, on any route, with the first one's data. The requests on a route get what they would
  have got alone exactly when every singleton met there is request-free on every route that meets it
  (`Dependencies.PlainExactlyWhen`, `Dependencies.FirstRequestLeaks`, `Dependencies.OtherRouteLeaks`).
- A room holds a socket whose send has failed exactly when the socket joined it again afterwards, which
  nothing prevents (`PubSub.FailedMemberExactlyWhen`, `PubSub.DeadSocketJoinsAgain`).
- A case-insensitive lookup finds a text by its own value exactly when Python and the database lower its
  characters alike. On SQLite they do, since `endocore/orm/backends/sqlite.py:57-66` registers `str.lower`
  as LOWER; a server whose LOWER differs, such as PostgreSQL under the C locale, misses texts with other
  than ASCII capitals (`Like.FindsItselfExactlyWhen`, `Like.CapitalMissed`).
- A model whose table is called `J1`, `J2`, ... shares its name with a join alias
  (`RelationJoins.BaseNamedLikeAliasClashes`, `RelationJoins.TableNamedJ1`).
- A dangling foreign key is an error when followed lazily and None when loaded eagerly
  (`Prefetch.EagerFkIsLazy`, `Hydration.AttachedIsLazy`).
- A multipart content that ends in CR or LF loses its trailing line breaks
  (`Multipart.RoundTripExactlyWhen`, `Multipart.TrailingBreakLost`).

## Model

| member | source | states |
|---|---|---|
| Savepoints.RunRefinesIdeal | endocore/orm/connection.py:194-246 | with any savepoints already on the stack, a body of nested blocks ends in the promised database, raises when promised, and leaves the stack as it was plus the stale savepoints of failed blocks |
| Savepoints.StmtRefinesIdeal | endocore/orm/connection.py:216-246 | the same for one statement or block at any depth |
| Savepoints.ExitRestoresOwn | endocore/orm/connection.py:216-230 | leaving a nested block rolls back to, or releases, its own savepoint even when stale ones of deeper blocks lie above it |
| Savepoints.LeftoverNames | endocore/orm/connection.py:216-230 | all stale savepoints of a body carry the one name of the next deeper level, so a name in use further out is never shadowed |
| Savepoints.PinnedConnection.RunBody | endocore/orm/connection.py:150-177 | running a body on the mutable session does to it what the session function says |
| Savepoints.PinnedConnection.NestedTx | endocore/orm/connection.py:216-230 | a nested block commits its effects or restores its entry state and nothing else |
| Savepoints.PinnedConnection.RootTx | endocore/orm/connection.py:194-214 | a root block leaves the committed database of the ideal nesting and an empty savepoint stack |
| ConnectionPool.RunKeepsInv | endocore/orm/connection.py:99-246 | in every interleaving at most `size` connections are open, each with exactly one holder, and pinned statements own their transaction |
| ConnectionPool.PinnedConnectionsAreExclusive | endocore/orm/connection.py:194-214 | a connection pinned by an open root transaction has no other holder of any kind |
| ConnectionPool.IdleIsPartOfAll | endocore/orm/connection.py:99-139 | the idle list is a duplicate-free part of the open connections, which never exceed the pool size |
| ConnectionPool.PoolInOrder | endocore/orm/connection.py:99-214 | in every reachable state the pool object's own invariant holds and every borrowed connection is open, not idle and unpinned |
| ConnectionPool.WaitsExactlyWhenAllInUse | endocore/orm/connection.py:99-118 | a context must wait exactly when `size` connections are open and each is in use |
| ConnectionPool.RetiredTokenStaysRetired | endocore/orm/connection.py:143-148 | a token whose transaction ended never becomes live again |
| ConnectionPool.StaleTokenIsInert | endocore/orm/connection.py:143-177 | a context left with an ended transaction's token never runs on a pinned connection through it |
| ConnectionPool.Connection.TryAcquire | endocore/orm/connection.py:99-118 | one pass of the wait loop: take the last idle connection, open one below the bound, or wait; what it hands out is lent to nobody else |
| ConnectionPool.Connection.GiveBack | endocore/orm/connection.py:120-139 | after a healthy return no connection was closed and this one is the last idle one; after a broken one it is in neither list and every other connection stands where it stood |
| ConnectionPool.Connection.Execute | endocore/orm/connection.py:150-177 | a statement runs on the pinned connection of its live token, else on a pooled one that is idle again afterwards, or gone when it broke |
| ConnectionPool.Connection.EnterRoot | endocore/orm/connection.py:194-199 | a root block registers a fresh token for its connection |
| ConnectionPool.Connection.ExitRoot | endocore/orm/connection.py:200-214 | the token is deregistered, no other transaction changes, and the connection is given back, healthy or broken as above |
| PoolUse.OpenUntilBroken | endocore/orm/connection.py:120-139 | over every run an open connection is closed if and only if some context gave it back broken |
| PoolUse.GivenBack | endocore/orm/connection.py:120-139 | given back broken, a connection has no holder of any kind in any future; given back healthy, it is open and the next to be lent |
| PoolUse.StatementRunsOn | endocore/orm/connection.py:143-177 | a statement runs on the connection of its context's live transaction, and otherwise on one that no transaction has |
| PoolUse.CopyJoins | endocore/orm/connection.py:143-148 | what is started from a context with an open root runs on its connection too |
| PoolUse.NestedBlock | endocore/orm/connection.py:216-230 | a nested block, entered and left, leaves no trace in the pool, and inside it the root cannot be left |
| PoolUse.RootBlock | endocore/orm/connection.py:194-214 | a root block keeps one connection and one token through any run; its end retires the token and restores the one its owner had before |
| PoolUse.EveryWaitEnds | endocore/orm/connection.py:99-118 | in every reachable state a context that wants a connection gets one after steps of others finishing what they are doing, with no new work begun |
| Like.ReplacesEscapeEachCharacter | endocore/orm/backends/base.py:79-85 | the three replacements in sequence equal one escape of each special character |
| Like.EscapedTextIsLiteral | endocore/orm/backends/base.py:79-85 | an escaped text matches itself and nothing else, in front of any rest of a pattern |
| Like.EscapedPatternMeansOccurs | endocore/orm/compiler.py:38-45 | the patterns for contains, startswith and endswith match exactly the strings in which the value occurs there |
| Like.LikeParamMeansOccurs | endocore/orm/compiler.py:122-130 | the built parameter matches a string, lowered on both sides when case is ignored, exactly when the value occurs in it at the asked place |
| Like.CaseIgnored | endocore/orm/compiler.py:122-130 | case is ignored for every text whose characters Python and the database lower alike |
| Like.FindsItselfExactlyWhen | endocore/orm/compiler.py:122-130 | a text is found by its own value, ignoring case, if and only if both lower its characters alike |
| Like.CapitalMissed | endocore/orm/compiler.py:122-130 | a text of one capital E with an acute accent is not found by its own value where LOWER leaves it as it is |
| QueryCompiler.OperatorReads | endocore/orm/compiler.py:134-163 | the text of each lookup reads back as its predicate and takes exactly its own parameters |
| QueryCompiler.OperatorMeans | endocore/orm/compiler.py:134-163 | that predicate has the lookup's three-valued meaning, empty IN, NULL and LIKE included |
| QueryCompiler.CompiledQReads | endocore/orm/compiler.py:172-198 | at any place in a token sequence the text of a Q tree reads back, by SQL precedence, as the tree without its empty parts |
| QueryCompiler.TreeMeans | endocore/orm/compiler.py:172-198 | that tree evaluates to what the Q tree means, empty subtrees vanishing even when negated |
| QueryCompiler.CompiledQMeansQ | endocore/orm/compiler.py:172-198 | parsing the emitted text and evaluating it with parameters left to right gives the Q tree's own three-valued result |
| QueryCompiler.WhereReads | endocore/orm/compiler.py:200-210 | the WHERE clause reads back as the conjunction of its filters, or is absent |
| QueryCompiler.WhereMeansFilters | endocore/orm/compiler.py:200-210 | the WHERE clause keeps exactly the rows that pass every filter |
| Statements.ExpressionReads | endocore/orm/expressions.py:33-64 | the text of an F expression reads back with its own grouping and parameters |
| Statements.ExpressionMeans | endocore/orm/expressions.py:53-64 | and evaluates to the expression's value on the row |
| Statements.UpdateMeansAssignments | endocore/orm/compiler.py:283-302 | a whole UPDATE, parsed with its parameters in order, assigns to exactly the passing rows the values computed from the old row |
| Statements.AggregateMeansFilteredRows | endocore/orm/compiler.py:249-257 | a whole aggregate statement asks for the given aggregates over exactly the passing rows |
| RelationJoins.FollowKeepsGood | endocore/orm/compiler.py:72-86 | following a path keeps one new alias for each path, joined to an earlier one, and changes no path already registered |
| RelationJoins.FollowAllKeepsGood | endocore/orm/compiler.py:72-96 | the same for any list of paths |
| RelationJoins.FollowAllFindsTargets | endocore/orm/compiler.py:72-96 | following paths fails exactly when the declarations do not know one of them |
| RelationJoins.NamesDistinct | endocore/orm/compiler.py:72-86 | two different paths never share an alias |
| RelationJoins.BaseNamedLikeAliasClashes | endocore/orm/compiler.py:64-86 | unless the base table is itself named like an alias in use |
| RelationJoins.TableNamedJ1 | endocore/orm/compiler.py:64-86 | a self-referencing table called `J1` is joined to itself under its own name |
| RelationJoins.OneJoinedRowPerBaseRow | endocore/orm/compiler.py:57-103 | with unique primary keys the joins give one row for each base row, in order, in which every alias reads the row reached by its path, or NULLs |
| RelationJoins.JoinedQueryMeansNavigation | endocore/orm/compiler.py:312-352 | filtered joined queries and COUNT(*) equal filtering the base rows by navigation |
| SqlCompiler.RelationResolver.Follow | endocore/orm/compiler.py:72-86 | the method changes joins, counter and cache as the resolver function says |
| SqlCompiler.CompileQ | endocore/orm/compiler.py:172-198 | the recursive loop over children, registering joins as it goes, emits the text the meaning results are about |
| SqlCompiler.WhereClause | endocore/orm/compiler.py:200-210 | the loop over filters emits the specified clause under the final aliases |
| SqlCompiler.Update | endocore/orm/compiler.py:283-302 | the loop over assignments emits the specified statement, none for no assignments |
| SqlCompiler.Aggregate | endocore/orm/compiler.py:249-257 | the loop over fragments emits the specified statement |
| SqlCompiler.CountJoined | endocore/orm/compiler.py:345-352 | fails exactly when some filter names an undeclared relation; otherwise, on every database, the counted rows are the base rows that pass by navigation |
| Schemas.Exec | endocore/orm/migrations.py:53-69 | a statement on a database is accepted exactly when its schema accepts it, and changes the schema as the schema says |
| Migrations.RebuildRuns | endocore/orm/migrations.py:53-69 | the four statements of a rebuild replace one table's columns and touch nothing else |
| Migrations.TableLinks | endocore/orm/migrations.py:93-114 | the changes to one surviving table lead to its new columns and back |
| Migrations.TablePhaseLinks | endocore/orm/migrations.py:79-125 | everything before the indexes leads from the old tables to the new ones and back |
| Migrations.IndexPhaseLinks | endocore/orm/migrations.py:127-137 | the index statements lead to the new indexes and back |
| Migrations.DiffGoesThereAndBack | endocore/orm/migrations.py:72-139 | the forward program turns the old schema into the new one and the reverse program turns it back |
| MigrationEffects.DiffOutcome | endocore/orm/migrations.py:72-139 | the forward program fails if and only if an index that is dropped has gone with its table or column, and otherwise leads to the new schema with kept names as they were and kept indexes of rebuilt tables missing |
| MigrationEffects.DiffWorksExactlyWhen | endocore/orm/migrations.py:72-139 | the forward program reaches the new schema if and only if no old index is touched and shared names agree |
| MigrationEffects.TouchedMeans | endocore/orm/migrations.py:93-114 | an old index is touched if and only if its table or one of its columns goes, or a shared column of its table is defined anew |
| MigrationEffects.IndexedColumnCannotBeDropped | endocore/orm/migrations.py:116-137 | dropping a column together with its index gives a program that fails |
| MigrationEffects.IndexFate | endocore/orm/migrations.py:127-137 | along a program that never makes it, an index survives only if nothing takes it away, and dropping one that is gone fails |
| MigrationRows.RowsSurvive | endocore/orm/migrations.py:53-139 | on a database with rows both programs run, and every table of both snapshots keeps its rows and their values in shared columns, there and back |
| MigrationRows.RowsSurviveRenames | endocore/orm/migrations.py:210-244 | so do they under a written program with renames, a renamed column's values under its new name, and under its old one when the program leads back |
| SchemaDiff.DiffState | endocore/orm/migrations.py:72-139 | the loops that append to one program and insert at the front of the other build exactly these two programs |
| Renames.RenamesLink | endocore/orm/migrations.py:210-230 | rename statements run if and only if each column exists and its new name is free, and then lead to the schema with indexes, through tables and CREATE texts respelled, and back |
| Renames.ProgramOutcome | endocore/orm/migrations.py:210-244 | renames followed by the diff fail if and only if a rename is not good or the diff from the respelled schema comes to drop an index that has gone, and otherwise lead where that diff does |
| Renames.ProgramWorksExactlyWhen | endocore/orm/migrations.py:210-244 | they reach the models' schema if and only if the renames are good and the diff from the respelled schema works, renamed indexed columns included; that is, if they neither halt nor are led astray by a kept name |
| Renames.ProgramLinks | endocore/orm/migrations.py:210-244 | and lead back when nothing that is made again was respelled |
| RenameUndoing.UndoingWorksExactlyWhen | endocore/orm/migrations.py:210-244 | once the program has run, its reverse leads back if and only if no rename respelled a table, through table or index that it makes again |
| RenameUndoing.LostColumnStopsUndoing | endocore/orm/migrations.py:127-137 | the reverse program fails when a dropped index stood on a column whose name is gone |
| RenameUndoing.IndexedColumnRenameCannotBeUndone | endocore/orm/migrations.py:210-244 | renaming one indexed column migrates and cannot be rolled back |
| FileNames.NumericExactlyUpTo9999 | endocore/orm/migrations.py:187-191 | zero-padded names of the first k numbers sort as numbers if and only if k is at most 9999 |
| MigrationHistory.ListingIsCreationOrder | endocore/orm/migrations.py:187-191 | sorting the files by name gives the order they were written |
| MigrationHistory.MakeMigrationsKeeps | endocore/orm/migrations.py:210-244 | a new file keeps the applied names a prefix, and the history in step when its forward program works or fails |
| MigrationHistory.MigrateAppliesUpToTarget | endocore/orm/migrations.py:270-291 | migrate applies in order the files after the applied ones through the first that matches the target, stopping at a failure |
| MigrationHistory.RollbackUndoesLast | endocore/orm/migrations.py:309-332 | rollback(k) undoes exactly the last k, all if fewer, none if k is not positive, newest first, stopping at a failure |
| MigrationHistory.MigrateThenRollback | endocore/orm/migrations.py:270-332 | migrating as far as it gets and rolling back as many steps restores files, history and schema when the files applied can be undone and return; it gets to the end if and only if no file on the way has a program that fails |
| MigrationHistory.SoundFile | endocore/orm/migrations.py:270-332 | a written file leads from the schema before it to its own or fails, and leads back if and only if no rename in it respelled what it makes again |
| MigrationHistory.OneStepBackExactlyWhen | endocore/orm/migrations.py:309-332 | rolling back one step succeeds with the recorded schema if and only if the file has an inverse and returns |
| MigrationHistory.RunKeepsPrefix | endocore/orm/migrations.py:187-332 | in every run of the commands, failures included, the applied names are the first of the sorted files |
| MigrationHistory.RunKeepsSchema | endocore/orm/migrations.py:187-332 | and the schema is the one recorded by the last applied schema file, and no file whose program the database rejects is ever applied, as long as no forward program is led astray by a kept name and each file rolled back either returns or fails on a lost column |
| MakingMigrations.FileWritten | endocore/orm/migrations.py:210-244 | one file is added, under the next number, recording the models and both programs, unless there are no renames and the diff would run and lead nowhere else |
| MakingMigrations.NothingToDo | endocore/orm/migrations.py:234-238 | without renames, where the diff leads to the models, no file is added if and only if the recorded snapshot already describes their schema |
| MakingMigrations.MakeThenMigrate | endocore/orm/migrations.py:210-291 | making and migrating, from a world in step whose files all advance, ends with everything applied where the program leads from the recorded schema, or stops before the new file exactly when the program halts |
| MakingMigrations.ModelsReached | endocore/orm/migrations.py:210-291 | and ends with the models' schema if and only if the program works |
| MakingMigrations.SecondTimeNothing | endocore/orm/migrations.py:234-238 | making migrations again for the same models writes nothing, whatever the first time did |
| MakingMigrations.DataThenMigrate | endocore/orm/migrations.py:246-268 | a data migration is one more file that leaves the schema alone, and goes back exactly when it has an inverse |
| MakingMigrations.TargetMeans | endocore/orm/migrations.py:289-290 | migrate goes through the first name that starts with the target, or through all of them |
| MakingMigrations.NumberIsTarget | endocore/orm/migrations.py:289-290 | so the four-digit number of a file stops at that file and at no other |
| Migrator.Migrator.LastRecorded | endocore/orm/migrations.py:193-200 | the walk back over the files finds the last recorded snapshot |
| Migrator.Migrator.MakeMigrations | endocore/orm/migrations.py:210-244 | writes the file of the machine's step, or none when nothing changed |
| Migrator.Migrator.Migrate | endocore/orm/migrations.py:270-291 | the loop with a transaction per file leaves the world, the names and the failure of the machine's step |
| Migrator.Migrator.Rollback | endocore/orm/migrations.py:309-332 | the loop over reversed names does too |
| Shop.RunKeepsMoney | demos/shop/Services/shop.py:31-122 | in every reachable state each wallet is payments minus purchase prices and never negative, no payment id occurs twice, and uncommitted writes never overlap |
| Shop.CommitPurchase | demos/shop/Services/shop.py:91-102 | committing a charge and its purchase keeps the books balanced under any other open transactions |
| Shop.CommitPayment | demos/shop/Services/shop.py:107-122 | so does committing a payment and its credit, once for each external id |
| ShopKeys.RunKeepsKeys | demos/shop/Services/shop.py:56-102 | in every reachable state each key has one claimer and at most one purchase, and every stored or given answer is true of the purchases |
| ShopKeys.FinishedForGood | demos/shop/Services/shop.py:75-79 | a finished record never changes in any later run |
| ShopKeys.LatecomersWriteNothing | demos/shop/Services/shop.py:56-72 | a call whose key another request claimed never writes to the database |
| ShopKeys.RetriesAnswered | demos/shop/Services/shop.py:56-72 | whatever else happens, a later call on a settled key is answered by the stored status and body, by a conflict for another user, or by "retry later" when the key was abandoned |
| ShopKeys.AbandonedForGood | demos/shop/Services/shop.py:82-102 | a claimer that crashed or was given an invalid id leaves its key unfinished in every future |
| ShopKeys.CrashAfterCharge | demos/shop/Services/shop.py:91-102 | a crash between the charge and the stored answer leaves a purchase under an abandoned key |
| ShopKeys.UnluckyCustomer | demos/shop/Services/shop.py:91-122 | a run from the empty shop in which a customer registers, pays, buys and crashes there, with the money gone, the purchase made and the key abandoned |
| ShopKeys.BuyStepsAlone | demos/shop/Services/shop.py:82-102 | the statements of one undisturbed purchase do what the purchase function says |
| ShopKeys.PayStepsAlone | demos/shop/Services/shop.py:107-122 | so do those of one undisturbed webhook call |
| ShopReasons.GoesOnForAReason | demos/shop/Services/shop.py:31-122 | in every state and event a request goes on only for its reason: 402 only when the committed wallet is missing or below the price shown, 404 only when there is no such product, "duplicate" only of a committed payment |
| ShopReasons.StoredForAReason | demos/shop/Services/shop.py:82-102 | in every run a stored 402 means that the claimer's wallet once fell short of a price its product had, a stored 404 that the product was once missing, and nothing else but 201 is stored |
| ShopReasons.PricesWereReal | demos/shop/Services/shop.py:91-102 | every purchase was made at a price its product had |
| ShopReasons.AppliedMeansPaid | demos/shop/Services/shop.py:107-122 | a webhook call answered as applied, a retry included, has its payment committed |
| ShopProgress.EveryRequestEnds | demos/shop/Services/shop.py:56-122 | from every reachable state the statements of the requests there are bring any one of them to its end: no lock is waited for in a circle |
| ShopService.Service.Spend | demos/shop/Services/shop.py:31-40 | the conditional UPDATE deducts exactly when the balance allows it |
| ShopService.Service.ClaimKey | demos/shop/Services/shop.py:56-72 | a free key is claimed, a used one is answered without a change |
| ShopService.Service.Buy | demos/shop/Services/shop.py:82-102 | one purchase updates the database as the purchase function says |
| ShopService.Service.ApplyGatewayPayment | demos/shop/Services/shop.py:107-122 | one webhook call credits at most once |
| Registry.Registry.Add | endocore/core/registry.py:71-85 | inserting into the linked nodes in place keeps the trie the picture of the list with the entry added |
| Registry.Registry.Resolve | endocore/core/registry.py:87-121 | the walk returns what narrowing the plain list returns, and the allowed methods sorted |
| Registry.Registry.Entries | endocore/core/registry.py:129-149 | the tree walk terminates and lists every surviving entry exactly once, as many as the count says |
| Registry.Registry.Walk | endocore/core/registry.py:133-138 | below one node it lists exactly the surviving entries that pass there |
| Registry.GrowDone | endocore/core/registry.py:71-85 | nodes made on the way down and one handler set are exactly what the longer list asks for |
| Routes.ThroughAppend | endocore/core/registry.py:75-82 | an added entry shows up at exactly the places of its path, behind all others |
| Routes.OtherVersionsUnchanged | endocore/core/registry.py:71-85 | adding to one version changes no resolution in another |
| Routes.SurvivorsFillSlots | endocore/core/registry.py:129-149 | a list of each survivor once has one entry for each distinct version, path shape and method |
| RouteMatching.ResolveMeans | endocore/core/registry.py:87-121 | a request finds an entry if and only if it is the last added of its version, shape and method, matches segment by segment, and is dynamic only where no entry agreeing with it so far has the segment by name; each parameter is called as the first added entry calls it; a method missing at a place that has others is not allowed, with exactly theirs; anything else is not found |
| RateLimit.SweepingIsInvisible | endocore/middleware/ratelimit.py:48-63 | for every trace with a clock that never goes back, sweeping changes no answer |
| RateLimit.AtMostTwiceTheLimit | endocore/middleware/ratelimit.py:48-63 | exactly the first `limit` requests of a client in each window pass, and at most twice that many in any half-open interval as long as a window |
| RateLimit.StoredWindowsAreRecent | endocore/middleware/ratelimit.py:48-59 | after every request each stored window began less than two windows ago |
| RateLimit.LogIsAnswers | endocore/middleware/ratelimit.py:43-63 | the log those bounds are about is the sequence of answers given |
| RateLimit.Limiter.Handle | endocore/middleware/ratelimit.py:43-63 | the closure updates table and sweep time, and answers, as the step function says; a refused client is told the whole seconds left of its window, at least one |
| PubSub.RunKeepsGood | endocore/core/pubsub.py:60-148 | in every run no socket gets a message twice, only members of its room at the snapshot get it, the excluded one never, and no room is empty or holds another worker's socket |
| PubSub.FailedMemberExactlyWhen | endocore/core/pubsub.py:50-83 | after its last failed send a room holds a socket if and only if it joined that room again and has not left it since |
| PubSub.FailedIsRecorded | endocore/core/pubsub.py:77-83 | the failed sockets are those some event of the run failed to send to |
| PubSub.DeadSocketJoinsAgain | endocore/core/pubsub.py:50-58 | a run in which a socket that failed is joined to another room |
| PubSub.NextTotal | endocore/core/pubsub.py:77-148 | deliveries made plus deliveries still owed never grow, and for a healthy member that stays never shrink |
| PubSub.ExactlyOnce | endocore/core/pubsub.py:85-148 | a broadcast reaches each healthy socket that stays in the room, on a subscribed worker or the publisher's own, exactly once |
| BroadcastProgress.EveryBroadcastFinishes | endocore/core/pubsub.py:85-148 | from every reachable state the workers' own steps finish any started message on every worker |
| BroadcastProgress.EveryBroadcastArrives | endocore/core/pubsub.py:85-148 | so after a broadcast, and any run in which a healthy member stays, they bring it the message exactly once |
| BroadcastProgress.UnsubscribedMisses | endocore/core/pubsub.py:105-117 | a message published while a worker is not subscribed never reaches a socket there |
| BroadcastProgress.FirstBroadcast | endocore/core/pubsub.py:85-148 | one such run from the start, through another worker |
| WebSocketManager.Manager.Add | endocore/core/pubsub.py:50-58 | the socket joins the room and nothing else changes |
| WebSocketManager.Manager.Disconnect | endocore/core/pubsub.py:60-66 | the loop removes the socket from one room or from all, and deletes rooms left empty |
| WebSocketManager.Manager.BroadcastLocal | endocore/core/pubsub.py:77-88 | over a copy of the members, each healthy one but the excluded gets the message once and each dead one leaves every room |
| Prefetch.EagerFkIsLazy | endocore/orm/query.py:408-413 | eager and lazy foreign objects are the same exactly when the key does not dangle |
| Prefetch.WithFkTwice | endocore/orm/query.py:415-439 | narrowing the batch to one key gives that key's own query in the same order |
| Prefetch.EagerM2mIsLazy | endocore/orm/query.py:387-406 | eager and lazy many-to-many lists hold the same objects |
| Prefetch.NoneTwice | endocore/orm/fields.py:649-666 | and neither repeats one |
| Prefetch.FkMeans | endocore/orm/query.py:408-413 | the eager foreign object is the row with that key, and none when there is no such row |
| Prefetch.ReverseMeans | endocore/orm/query.py:415-439 | the reverse list is the rows that point at the instance, in the table's order |
| Prefetch.M2mMeans | endocore/orm/fields.py:649-666 | the lazy many-to-many list holds exactly the rows that the through table pairs with the instance |
| Prefetch.EagerM2mInOrder | endocore/orm/query.py:387-406 | the eager one is in the order of the through table |
| Prefetcher.PrefetchFk | endocore/orm/query.py:408-413 | one query fills every instance's cache with its own foreign object |
| Prefetcher.PrefetchReverse | endocore/orm/query.py:415-439 | grouping one ordered query fills every cache with that instance's own lazy list |
| Prefetcher.PrefetchM2m | endocore/orm/query.py:387-406 | two queries fill every cache with that instance's own targets, in through-table order |
| Prefetcher.Instance.Related | endocore/orm/model.py:99-107 | the descriptor answers from the cache, or queries and remembers |
| Hydration.Hydrate | endocore/orm/query.py:283-296 | an object is attached exactly where its parent object was built, and is the one its columns spell |
| Hydration.SpelledIsReached | endocore/orm/query.py:273-289 | the columns of a path spell the row navigation reaches, and none when it reaches none |
| Hydration.AttachedIsLazy | endocore/orm/model.py:99-107 | what is attached is what the lazy descriptor loads, except that a dangling key gives None |
| Hydration.AttachedWhereReached | endocore/orm/query.py:283-296 | with a prefix-closed selection an object is attached exactly where navigation reaches its parent; below a gap nothing is |
| Hydration.HydratedIsNavigated | endocore/orm/query.py:273-296 | together: what hydration caches for a prefix-closed selection is exactly what the descriptors load along the paths navigation reaches |
| Multipart.ParsePrint | endocore/core/datastructures.py:112-150 | printing fields and files and parsing them gives back names, filenames and types in order, and contents without trailing line breaks |
| Multipart.RoundTripExactlyWhen | endocore/core/datastructures.py:120-123 | a part survives unchanged if and only if its content does not end in CR or LF |
| Multipart.TrailingBreakLost | endocore/core/datastructures.py:120-123 | a content ending in a line break is read as the one without it |
| Multipart.ParamsBack | endocore/core/datastructures.py:102-109 | the parameters of a printed disposition come back whole |
| Multipart.HeadersBack | endocore/core/datastructures.py:125-133 | so do the two headers |
| Multipart.SplitJoin | endocore/core/datastructures.py:120 | splitting at the delimiter undoes joining with it when no piece can be mistaken for it |
| FormParser.ParseMultipart | endocore/core/datastructures.py:112-150 | the loops build the form the parser function says |
| FormParser.ParseDisposition | endocore/core/datastructures.py:102-109 | the loop over chunks builds the parameter dictionary |
| FormParser.FormBack | endocore/core/datastructures.py:112-150 | a printed form holds under each field its contents in order |
| Dependencies.Resolver.Solve | endocore/core/di.py:106-117 | with any table of remembered singletons, memoised resolution terminates, gives the arguments that evaluation with that table gives, and remembers exactly the singletons met |
| Dependencies.Resolver.ResolveDepends | endocore/core/di.py:183-190 | a dependency is called at most once for each request |
| Dependencies.Resolver.ResolveProvider | endocore/core/di.py:193-201 | a singleton factory is called only when the table does not have it, and then it has |
| Dependencies.ArgumentIs | endocore/core/di.py:120-151 | an argument comes from its Depends, else is the request or the websocket, else a path parameter, else what the provider of its annotation makes, else that of its name, else its default |
| Dependencies.ServeAll | endocore/core/di.py:106-201 | requests to any handlers, served one after another from an empty table, are each answered by evaluation with the table so far, and call no singleton factory twice |
| Dependencies.PlainExactlyWhen | endocore/core/di.py:193-201 | in every such service of a set of routes, all requests on one route get what they would have got alone if and only if every singleton met there is request-free on every route that meets it |
| Dependencies.FreeIsPlain | endocore/core/di.py:193-201 | the if half holds with routes whose requests fail, too |
| Dependencies.SecondRequestWrong | endocore/core/di.py:193-201 | otherwise a request on the other route makes the next one be answered wrongly |
| Dependencies.FirstRequestLeaks | endocore/core/di.py:193-201 | one application in which the first request's data are what a request to another handler gets |
| Dependencies.OtherRouteLeaks | endocore/core/di.py:193-201 | one in which a path parameter of the first route reaches a route without it |
| Dependencies.SameInEveryRequest | endocore/core/di.py:193-201 | a function that needs nothing from the request has one value in all requests |

## Left out

- A COMMIT that fails, PostgreSQL's aborted-transaction state after a failing statement, and SQLite's deferred start when a SAVEPOINT comes first; the driver is taken to open the transaction with the block's first statement.
- The wait loop of `_acquire` is repeated single passes; its deadline and notification are not modelled, nor are cancellation and `close()` while something is borrowed. Blocks are well nested per context.
- Splitting lookup keys into path and operator, adapting field values, SELECT lists, ORDER BY, LIMIT and quoting of identifiers; lowering is character by character, with one map for Python and one for the database.
- Dropping a column takes the indexes on it along, as PostgreSQL does; SQLite refuses such a statement instead.
- Constraints, NOT NULL, foreign-key order between DDL statements and case-insensitive identifiers; a column definition is an opaque text with a default.
- Migrations.DiffGoesThereAndBack: assumes `<t>__new` is free for a rebuilt table and that a name does not move between model tables and through tables.
- Renames.ProgramWorksExactlyWhen: takes the same two assumptions about names, for the snapshot as the renames leave it.
- MigrationHistory.RunKeepsSchema: data migrations leave the schema alone and their effect on rows is not modelled; files are not edited or deleted by hand. Set aside in runs are a forward program that runs and lands elsewhere, because it keeps an index on a rebuilt table or redefines a kept name, and a reverse program that does, because a respelled index can still be made; Renames.ProgramWorksExactlyWhen and OneStepBackExactlyWhen say when that is.
- Shop.RunKeepsMoney: an account and its wallet are created together, so a payment always finds a wallet; parsing of requests, e-mail lookup and authentication are left out.
- Path splitting, URL decoding, handler import and `latest_version`; upper-casing is for ASCII letters.
- Prefetch.WithFkTwice: a query returns the matching rows of its table in one fixed order, so an ordering with ties is taken to break them the same way each time.
- Stopping a manager, malformed messages on its channel, overlapping channel prefixes and JSON of payloads; the broker and the queue behind it are one stream for each worker.
- The Redis-backed limiter; the clock is a real number that starts at or after zero.
- Multipart.ParsePrint: UTF-8 decoding is left out, so a text value is its bytes.
- Pydantic validation, type-hint lookup and awaiting in the dependency resolver; functions depend on their arguments only. Requests that overlap are not modelled: each may then call a singleton factory before the other has stored its value.
- Dependencies.PlainExactlyWhen: for the only-if half the requests on each route can be resolved; FreeIsPlain does not need that.
- Booking and team-board demos, annotate, re-slicing, `bulk_create`, sessions, cryptography and the command line.
