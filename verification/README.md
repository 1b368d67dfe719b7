# Soro verification

A Dafny model of the parts of Soro, a Go application framework, that hold their own logic, with proofs of what those
parts promise. Four areas are covered, each from its imperative code up to the laws about it.

**Migrations.** `SqlLexer` gives the lexical structure of a migration script as a recursive function; `SqlSplitter`
is the loop that moves its own index, proved equal to it; `SqlRoundTrip` says what the statements are and that printing
and splitting undo each other; `SqlTokens` says the same without the lexer, token by token. `MigrationFile` reads the two sections of a file, `Names`, `Fields` and
`MigrationRender` are the generator's side, and `GeneratedMigration` closes the circle: what is generated loads back.
`FieldSpecifications` follows a field from its written specification to its loaded column.
`Migrator`, `MigratorLaws`, `MigratorSteps`, `MigratorStatus` and `ConcurrentApply` run the loaded migrations against a schema and a
ledger; `LoadOrder` looks at the order in which a directory presents them.

**Transactions and the repository.** `Transaction` gives callback bodies, as programs, a meaning; `Coordinator` is the
mutable coordinator, proved to behave that way; `TransactionLaws`, `TransactionStore`, `TransactionAtomicity` (database
by database) and `TransactionErrors` (what an error depends on) hold for every program.
`Lifecycle` is the hook registry. `ModelSchema`, `Changes`, `Entities`, `Clone` and `Recording` are the reflective side: which
fields a model has, what changed, and that what was recorded stays. `Repository` is the write operations with their
pipelines, `RepositoryLaws` what their traces and writes mean, `RepositoryRows` what the rows then hold, `SoftDelete` the protocol between concurrent clients,
`SoftDeleteWrites` that the repository's writes are the protocol's; `OperationPrograms` and `Endpoints` put operations and
requests under the coordinator, and `LateHooks` looks at operations that terminal hooks start.

**List queries.** `QueryDefinition`, `QuerySort`, `QueryFilter` and `QueryParse` read a request against a definition;
`QueryLaws`, `QueryValues` and `QueryDocumentation` say what is accepted, that it means what its text says and that it is
what is documented; `QueryApply`, `QueryOrder` and `Like` say which rows the built query selects and in which order; `Paging` is the arithmetic of pages.

**The generator's writes.** `Registrations` rebuilds the list of resources from marker comments; `GeneratorWrites` is the
preflight and commit of generated files.

`Text`, `Numbers` and `Ordering` hold the few library functions the code leans on (trimming, splitting, joining,
decimal integers, sorted strings). `dafny verify dfyconfig.toml` checks everything.

## What does not hold, and when it does

Properties one might expect and that fail in some cases. Each comes with a concrete case and, but for the page count, the
exact condition under which it holds; all are proved.

- A name read back from a marker comment can be another name (`Names.NumberedNameIsNotRestored`); it is the same exactly
  under the condition of `Names.ParseSingular`.
- A directory of migrations is listed by file name but must be ordered by migration name; the two orders agree exactly
  under the condition of `LoadOrder.FileOrderIsNameOrder`.
- A page number far past the end can wrap around to the first page (`Paging.FarPageRepeatsTheFirst`);
  `Paging.OffsetIsExact` says exactly when it does not.
- The floating-point page count is exact below 2^53 rows (`Paging.PageCountIsExact`) but not for every total beyond: it is
  wrong at 2^53 + 1 (`Paging.PageCountLosesAPage`). The exact condition is proved for pages of one row
  (`Paging.OneRowPages`); for larger pages there is only the bound.
- The outermost transaction is atomic on its database exactly under the condition of
  `TransactionAtomicity.AtomicExactlyWhenNothingEscapes`, which programs without a frame of another database around a use
  of it meet (`TransactionAtomicity.DatabaseIsAtomic`) and others need not (`TransactionStore.DatabaseBetweenEscapes`).
- A row can be restored without ever having been deleted, namely exactly when it was created with a deletion time, which
  `Create` does not clear (`SoftDelete.FirstRestoreNeedsADeletion`, `SoftDelete.RestoreWithoutADeletion`).
- Recorded changes can mention an immutable field that is never written (`RepositoryLaws.CreatorIsRecordedNotWritten`),
  exactly when a hook altered it (`RepositoryLaws.ImmutableChangesAreHookChanges`).
- A delete can succeed without deleting (`RepositoryLaws.ClearedDeleteLeavesTheRow`), exactly when a hook cleared the
  deletion time (`RepositoryLaws.DeletionMarksTheRow`).
- A request can return an error although its transaction committed and its writes stand: the error of an after-commit hook
  (`Endpoints.CommitHookFailsAfterTheWrite`) or of the serializer (`Endpoints.SerializerFailsAfterTheWrite`).
  `Endpoints.ErrorsAndWrites` says exactly when an error means an unchanged database, and
  `Endpoints.QuietRequestIsAtomic` gives a condition on the text of hooks and serializer. The comment on `Transaction` in
  database/transaction.go does not mention it; the model follows the code.
- An operation's terminal hook can stay uncalled, whatever the fate of its transaction: exactly when it was not registered
  before the end (`OperationPrograms.CalledExactlyWhenRegistered`), as when a terminal hook starts the operation in the
  ended transaction (`LateHooks.OperationInAHookGetsNone`), for example by creating an entity in an after-commit hook
  (`LateHooks.CreateInACommitHook`). One that a running transaction's program starts and that gets past its find gets the
  hook for the fate of that transaction (`OperationPrograms.OperationGetsOneTerminalHook`).

## Model

| member | source | states |
|---|---|---|
| SqlSplitter.SplitStatements | migrate/files.go:109-193 | the in-place six-mode loop ends on every source and returns exactly what the recursive splitter returns: the statements, or which of the two errors |
| SqlSplitter.StepInside | migrate/files.go:117-146 | one pass through the comment, dollar-quote and quote branches, index jumps included, moves to a later position from which the splitter gives the same outcome |
| SqlSplitter.StepOpening | migrate/files.go:147-177 | the branches that open a construct move the loop to an equivalent later position and mode, and otherwise leave a plain character behind |
| SqlSplitter.DollarTag | migrate/files.go:161-176 | the lookahead for the closing `$` and the check of the characters between find a tag exactly when the text starts with one, and then that tag |
| SqlRoundTrip.SplitAtBareSemicolons | migrate/files.go:115-192 | a source is accepted exactly when no quote, dollar quote or block comment stays open and only blanks follow its last bare semicolon; its statements are the trimmed non-blank pieces between bare semicolons, and those pieces make up the whole source |
| SqlRoundTrip.SplitIsPrintable | migrate/files.go:178-192 | every returned statement is trimmed, not blank, lexically closed and free of bare semicolons |
| SqlRoundTrip.SplitUndoesPrint | migrate/files.go:115-192 | splitting undoes printing (each statement followed by newline, semicolon, newline) exactly for lists of trimmed, non-blank, closed statements without a bare semicolon |
| SqlRoundTrip.ResplitIsIdentity | migrate/files.go:115-192 | the statements of every accepted source survive being printed and split again |
| SqlRoundTrip.TagStable | migrate/files.go:161-176 | no dollar tag reaches across a separator between statements |
| SqlRoundTrip.LexemeStable | migrate/files.go:115-177 | a construct that ends inside a statement is read the same whatever separated text follows the statement |
| SqlRoundTrip.NewlineIsNeeded | migrate/files.go:117-122 | without the newline a statement that ends in a line comment swallows its own semicolon and is refused |
| SqlTokens.TokenLexeme | migrate/files.go:117-177 | said with the literal openers and closers: a quoted text with its quotes doubled, a dollar quote without an earlier copy of its delimiter, a line comment and a block comment are each taken whole, and any other character by itself |
| SqlTokens.TokensDecide | migrate/files.go:109-193 | the tokens of a script decide how it is split: an unclosed quote, dollar quote or block comment refuses it, text after the last semicolon refuses it, and otherwise the statements are the trimmed non-blank texts between its semicolon tokens |
| SqlTokens.EveryTextHasTokens | migrate/files.go:109-193 | every text whatever is the text of well-formed tokens and an ending, so that the result above covers all scripts |
| MigrationFile.LoadFile | migrate/files.go:47-105 | the scanner loop with its section flags and two builders returns exactly what the section reader returns, every error included |
| MigrationFile.LoadsExactlySections | migrate/files.go:54-104 | a file loads exactly when it is blank lines, one Up marker, marker-free lines, one Down marker and marker-free lines, each within the scanner's limit, and both bodies split into statements; those are the ones loaded |
| LoadOrder.FileOrderIsNameOrder | migrate/files.go:28-42 | a directory listed by file name passes the order-by-name validation exactly when no name continues another with a text that sorts before `.sql` |
| LoadOrder.DashedNamesAreRefused | migrate/files.go:28-42 | a directory with `a.sql` and `a-b.sql` is refused though its names can be ordered |
| Names.WordsOfLoop | generate/schema.go:48-75 | the loop with its flushing closure returns the words of the recursive word grammar |
| Names.WordsConserve | generate/schema.go:48-75 | splitting into words loses no letter or digit, adds none and keeps their order |
| Names.WordsOfSnake | generate/schema.go:48-75 | words joined by underscores are split into the same words |
| Names.ParseSnake | generate/schema.go:25-37 | parsing the snake name of any accepted name gives that name again |
| Names.ParseSingular | generate/schema.go:25-46 | parsing the exported name of an accepted name gives the same name exactly when every later word begins with a letter and no one-letter word is followed by a word of one character or with a digit second |
| Names.SnakeInjective | generate/schema.go:25-37 | names with equal snake forms have equal words |
| Names.NumberedNameIsNotRestored | generate/schema.go:25-46 | the name with words foo and 1 comes back from its exported form as the one word foo1, with another table |
| Names.PluralsByEnding | generate/schema.go:77-87 | a y after a consonant becomes ies, a hissing ending takes es, anything else takes s |
| Fields.ParseField | generate/schema.go:142-194 | the option loop over a field record returns exactly what the field grammar gives, or its error |
| Fields.ParseFields | generate/schema.go:113-140 | the loop with its seen-sets returns one field per specification or the first error |
| Fields.FieldsAreValid | generate/schema.go:113-194 | an accepted list holds the parsed field of every specification in order, with distinct names and Go names, and only renderable defaults and consistent options |
| Fields.FieldNamesParse | generate/schema.go:142-152 | every accepted field name is an acceptable name, so the error for it cannot occur |
| FieldSpecifications.SpecificationBecomes | generate/schema.go:142-194 | a specification of a name, a type word and options, none repeated, is accepted exactly when its default is one of its type and null goes with neither default nor uniqueness, and becomes the field with exactly these flags, default and type |
| FieldSpecifications.AcceptedIsSpecification | generate/schema.go:142-194 | every accepted text is that of such a specification |
| FieldSpecifications.TextDefaultDenotes | generate/schema.go:264 | a string default is rendered as a SQL literal that, read with doubled quotes as one, is the given text, for every text without NUL and line breaks, and others are refused |
| FieldSpecifications.OtherDefaultsDenote | generate/schema.go:232-263 | TRUE and FALSE are written exactly for true and false, numbers as given, NOW() exactly for the word now in any case, the empty object as JSONB |
| MigrationRender.RenderColumn | generate/render.go:329-372 | one column is written with its type, NOT NULL, default and uniqueness, or fails with its default |
| MigrationRender.RenderIndexes | generate/render.go:329-372 | one index statement for each unique or indexed field, in field order |
| MigrationRender.RenderMigration | generate/render.go:329-372 | the buffer holds the migration text of the table and its fields, and rendering fails exactly when some default cannot be rendered |
| GeneratedMigration.RenderedLoads | generate/render.go:329-372 | loading the rendered migration of any valid fields gives the CREATE TABLE, the index statements in order and the one DROP TABLE, whatever a string default contains |
| GeneratedMigration.GeneratedMigrationLoads | generate/render.go:329-372 | the same from any accepted name and any accepted field specifications, for lines within the scanner's limit |
| FieldSpecifications.SpecifiedMigrationLoads | generate/render.go:329-372 | from the specification texts to the loaded statements: the table with the ten standard columns and one for each specification, differently named, each with the SQL type of its type word, its nullability and a default that denotes the one written, then the indexes asked for, and the drop |
| Registrations.ReadEntry | generate/render.go:388-405 | the line loop finds the first marker of a resource file and parses the name on it |
| Registrations.ResourceRegistrations | generate/render.go:374-407 | the registry is the gathered map's names, strictly sorted by singular name, or the first failure |
| Registrations.FileRestoresItsName | generate/render.go:390-397 | a generated file gives back the name it was generated for exactly when the words of that name stay apart |
| Registrations.RegistryIsRebuilt | generate/render.go:374-407 | from any directory whose markers give names of different singulars, and whatever other files it holds, the registry holds exactly those names and the current one, sorted and each once |
| Registrations.RegistriesAgree | generate/render.go:374-407 | two sorted registries of the same names are the same list |
| Registrations.DirectoryOrderDoesNotMatter | generate/render.go:374-407 | two directories with the same entries in any two orders give the same registry |
| Registrations.RestorableNamesDiffer | generate/render.go:374-407 | names that are read back as themselves have different singulars, so a directory of them meets the condition of the two results above |
| Registrations.GeneratedFilesAreRestorable | generate/render.go:390-397 | the marker of a file generated for any accepted name gives a name, and that name is read back as itself from then on |
| Migrator.ValidateMigrations | migrate/migrate.go:154-178 | the set, the sorted copy and the comparison accept exactly strictly ascending non-empty names with statements both ways |
| Migrator.Runner.ExecStatements | migrate/migrate.go:145-152 | statements run in order up to the first failure |
| Migrator.Runner.ApplyAll | migrate/migrate.go:30-57 | the loop of one transaction per pending migration changes schema, ledger and history as the specification says, for every failing position |
| Migrator.Runner.RollbackLast | migrate/migrate.go:59-95 | likewise for the newest applied migrations, newest first, stopping at an unknown name or a failure |
| MigratorLaws.EveryHistoryAgrees | migrate/migrate.go:30-95 | after any sequence of Apply and Rollback calls failing anywhere, the schema is the fold of the committed Ups and Downs and the ledger holds exactly the names applied and not rolled back, each once |
| MigratorLaws.ApplyIsPrefix | migrate/migrate.go:37-55 | an Apply leaves a prefix of the pending list applied, all of it on success, and without outside failures the next one really fails |
| MigratorLaws.ApplyResumes | migrate/migrate.go:37-55 | re-running Apply after a failure succeeds exactly when an uninterrupted run does, and ends in the state that run ends in, up to recorded times |
| MigratorLaws.ApplyTwiceIsIdle | migrate/migrate.go:37-55 | Apply on a fully applied list changes nothing |
| MigratorLaws.ApplyAscends | migrate/migrate.go:37-55 | start times that do not go back keep the ledger in application order |
| MigratorLaws.DescendingIsReverse | migrate/migrate.go:66-73 | on such a ledger the query by time and name, descending, lists the rows newest first |
| MigratorLaws.RollbackInvertsApply | migrate/migrate.go:59-95 | Rollback(n) undoes exactly the last n applied migrations: it leaves the schema and ledger of applying only the earlier ones, and its Downs run in reverse order of the Ups |
| MigratorLaws.RollbackIsPrefix | migrate/migrate.go:59-95 | a Rollback leaves a prefix of its rows undone, all of them on success, and without outside failures the next one really cannot be undone |
| MigratorLaws.ApplyThenRollback | migrate/migrate.go:30-95 | rolling back as many migrations as an Apply applied, failed or not, restores the earlier schema and ledger |
| MigratorSteps.ExecIsSteps | migrate/migrate.go:145-152 | statements succeed exactly when there is a state after each of them, every one what the engine makes of the one before; the result is the last |
| MigratorSteps.ExecFailsAtAStatement | migrate/migrate.go:145-152 | they fail exactly when one of them fails in the state that those before it lead to |
| MigratorSteps.FailedStatementStopsApply | migrate/migrate.go:37-55 | when a statement of the next pending migration fails in the state reached, Apply fails and leaves schema, ledger and history as before that migration |
| MigratorSteps.StatementsRunInApply | migrate/migrate.go:37-55 | when all of them run, the migration is committed with its row and nothing else |
| MigratorSteps.FailedStatementStopsRollback | migrate/migrate.go:75-94 | when a Down statement of the next row fails in the state reached, Rollback fails and leaves schema, ledger and history as before it |
| MigratorSteps.StatementsRunInRollback | migrate/migrate.go:75-94 | when all of them run, the migration is undone and exactly its rows leave the ledger |
| MigratorStatus.ReportStatus | migrate/migrate.go:97-126 | one status per migration in order, with the time of its ledger row exactly when it has one |
| MigratorStatus.StatusTellsTheHistory | migrate/migrate.go:97-126 | after any history the status says whether the migration was applied and not rolled back |
| ConcurrentApply.EachUpCommitsOnce | migrate/migrate.go:37-54 | however any number of concurrent Apply runs interleave, no Up commits twice, the schema is the fold of the committed Ups, and the ledger holds exactly their names, each once |
| Coordinator.TransactionState.MarkRollback | database/transaction.go:106-113 | the state becomes rollback-only and keeps its first cause |
| Coordinator.Server.InTransaction | database/transaction.go:29-68 | joining or opening, committing or rolling back, over the mutable state behaves as the meaning of programs says, events and errors included |
| Coordinator.Server.AfterCommit | database/transaction.go:70-82 | registers with the nearest transaction of the same database, and fails without one |
| Coordinator.Server.AfterRollback | database/transaction.go:84-96 | likewise for the rollback list |
| Coordinator.Server.End | database/transaction.go:52-67 | the end of the outermost frame: the fate, the joined errors, one callback list |
| Coordinator.Server.RunAll | database/transaction.go:133-139 | every callback of the snapshot runs, also after one failed, and their errors are joined |
| TransactionLaws.StateFollowsEvents | database/transaction.go:29-39 | the shared state is what the transaction's own events say: its writes, its first failure, its registrations in order |
| TransactionLaws.CallbacksAreCalled | database/transaction.go:121-139 | the terminal phase calls exactly the snapshotted callbacks in order; what they register is never called |
| TransactionLaws.EveryTransactionIsLawful | database/transaction.go:29-68 | in every run of every program, every transaction at any depth attempts to commit exactly when no frame returned an error, and then calls exactly the callbacks registered for its fate, once each and in order |
| TransactionStore.RunPublishesItsCommits | database/transaction.go:62-67 | the store grows by direct writes and, at each commit, by all writes of that transaction |
| TransactionStore.OutermostIsAtomic | database/transaction.go:29-68 | for every tree of nested frames on one database with any swallowed errors: all writes are published when no frame failed and the commit succeeded, none otherwise, and the error begins with the first failure in time |
| TransactionStore.DatabaseBetweenEscapes | database/transaction.go:98-104 | only the nearest transaction is joined: with a frame of another database in between, an inner write outlives the outer rollback |
| TransactionAtomicity.DatabaseIsAtomic | database/transaction.go:29-68 | with frames of any databases: when no statement or frame on a database lies inside a frame of another one, the outermost frame publishes all its writes to that database or none |
| TransactionAtomicity.AtomicExactlyWhenNothingEscapes | database/transaction.go:29-68 | for every body, the outermost frame is atomic on its database exactly when in the run no statement on it runs outside its transactions and no other transaction that wrote to it commits |
| TransactionErrors.ErrorsAgree | database/transaction.go:29-96 | in the same context a program returns the same error and adds the same to its transaction, whatever the store and the state of that transaction |
| TransactionErrors.CallbackErrors | database/transaction.go:133-139 | callbacks do not disturb each other: the error joins what each of them returns by itself |
| TransactionErrors.FrameErrorIs | database/transaction.go:41-67 | the error of an outermost frame on any store: what stopped it from committing and the error of its rollback, joined with the errors of the callbacks for its fate |
| Lifecycle.Registry.RegisterGlobal | lifecycle/registry.go:34-44 | the registration goes behind everything of its own or a smaller priority and before the rest, nothing else changes, and errors change nothing |
| Lifecycle.Registry.Register | lifecycle/registry.go:46-63 | likewise in the list of one model type and stage, with the errors for the model in order |
| Lifecycle.AppendedIsSorted | lifecycle/registry.go:207-214 | appending the newest registration and sorting keeps the order by priority, then registration |
| Lifecycle.Runner.RunHandlers | lifecycle/registry.go:102-109 | handlers run in order up to the first failure |
| Lifecycle.Runner.Run | lifecycle/registry.go:67-88 | a before-stage calls global, then registered, then the entity's own hook, any other stage the reverse, up to the first failure; an unknown stage or a missing context calls nothing |
| Lifecycle.FirstLayerGuards | lifecycle/registry.go:67-88 | an own hook that fails keeps an after-stage from every handler; a before-stage reaches the own hook only after all handlers succeeded |
| Lifecycle.LayersInOrder | lifecycle/registry.go:67-88 | place by place, for the seven before-stages by name: global handlers, then the model's, then the own hook; in every other stage the reverse; each list in its order, all of them when nothing fails |
| ModelSchema.ModelMetadata.CollectFields | repository/metadata.go:51-77 | the recursive walk fills the map from field names to columns of the leaves, embedded structs in place |
| ModelSchema.ModelMetadata.Inspect | repository/metadata.go:25-49 | the update columns are the columns of all fields but the five immutable ones, in whatever order the map lists them |
| ModelSchema.ModelMetadata.UpdateColumns | repository/repository.go:457-461 | a sorted copy of the same columns |
| ModelSchema.UpdateColumnsAre | repository/metadata.go:40-48 | with distinct names, a leaf's column is an update column exactly when it is not immutable, and every update column is one of a leaf |
| ModelSchema.LeavesAreMembers | lifecycle/changes.go:83-95 | a member is compared as one value exactly when it is exported, not excluded by its tag and no untagged embedded struct, whose members count as the model's own |
| ModelSchema.SnakeCaseOfWords | lifecycle/changes.go:204-213 | in a column name every capitalised word after the first begins with an underscore |
| Changes.ChangeSet.CompareStruct | lifecycle/changes.go:83-114 | the recursive comparison records the leaves that differ, in the map it is given |
| Changes.ChangeSet.Fields | lifecycle/changes.go:46-53 | the changed names, sorted and each once |
| Changes.RecordedIsLeaf | lifecycle/changes.go:96-113 | every recorded change is a leaf whose normalised values differ, with its column and both values |
| Changes.LeafIsRecorded | lifecycle/changes.go:96-113 | with distinct names a leaf is recorded exactly when its normalised values differ |
| Changes.ChangesDescribeTheWrite | lifecycle/changes.go:83-114 | patching the scanned row with the recorded changes of the update columns is writing those columns; immutable columns keep their values |
| RepositoryRows.SameInstantIsNoChange | lifecycle/changes.go:133-147 | two values are no change exactly when they are equal or the same instant, directly or behind a pointer |
| Clone.Memory.Clone | lifecycle/changes.go:153-195 | a deep copy stands for the same value and shares no map, slice or pointer target with anything that existed |
| Clone.CopySurvivesEdits | lifecycle/changes.go:149-195 | later in-place edits of the original leave the copy's value alone |
| Recording.Record | lifecycle/changes.go:108-111 | a comparison stores, for every change, copies of both values in cells that did not exist before |
| Recording.RecordedChangesStay | lifecycle/changes.go:83-114 | whatever is later written to cells that the comparison did not add, a leaf has stored copies exactly when its normalised values differed, and they still stand for these values |
| Entities.RecordLeaves | model/base.go:11-22 | the leaves of a model are those before its embedded base, the base's ten, and those after |
| Repository.Session.Create | repository/repository.go:159-210 | the trace follows the pipeline; what is inserted is the caller's entity with its base completed, changed by the unskipped stages in order and by nothing else; it is inserted exactly when they, validation and the statement succeed under a free id, and every error is that of the step that failed |
| Repository.Session.Update | repository/repository.go:212-259 | the trace follows the pipeline; what is written is the caller's entity with the found row's immutable fields, the time and the actor, changed by the unskipped stages in order and by nothing else; its update columns go to one live row exactly when every step before succeeds, and the recorded changes are its differences from the row found |
| Repository.Session.FindForUpdate | repository/repository.go:216-239 | the caller's entity gets the found row's immutable fields, the time and the actor before any hook runs, and keeps everything else |
| Repository.Session.RunUpdateBeforeStages | repository/repository.go:377-396 | the changes are refreshed after each stage, so that they are current when the last one ends |
| Repository.Session.MutateDeletion | repository/repository.go:313-375 | what is written is the found entity marked and changed by the one before-stage; its four columns go to the row found in scope under the matching guard, exactly when stage and statement succeed, and otherwise nothing is written |
| Repository.Session.MarkRecord | repository/repository.go:321-354 | the entity that is found in scope is marked as deleted or restored, with the changes that makes, or the error says why there is none |
| Repository.Session.ForceDelete | repository/repository.go:279-311 | removes exactly the one row, in any scope, exactly when its before-stage and the statement succeed |
| Repository.Session.Run | repository/repository.go:425-430 | a skipped stage leaves trace and entity as they are and returns no error; another one leaves its mark and exactly the entity and the error of its handlers |
| Repository.Session.RegisterTerminalHooks | repository/repository.go:407-423 | registers each terminal hook unless it is skipped |
| Repository.Session.FindRecord | repository/repository.go:432-455 | finds the row exactly when it exists in the scope |
| Repository.Session.UpdateRow | repository/repository.go:243-251 | the guarded write changes one row in scope, or nothing and reports it missing |
| RepositoryLaws.TraceIsPrefix | repository/repository.go:159-375 | for every choice of failing and skipped stages the trace is a prefix of the pipeline without the skipped ones, complete exactly on success, and ends with the failing step |
| RepositoryLaws.EarlierStepsPassed | repository/repository.go:189-202 | a step is taken only after every earlier step that is not skipped succeeded; validation cannot be skipped |
| RepositoryLaws.UpdateWritesItsChanges | repository/repository.go:220-258 | with hooks that keep the id, the new row is the found row patched with the recorded changes; id, created and deleted columns and all other rows are as before, whatever hooks do to the entity |
| RepositoryLaws.ChangedExactlyWhenWritten | repository/repository.go:243-256 | for every update column the change is recorded exactly when the write changes the row, with the old and the new value |
| RepositoryLaws.ImmutableChangesAreHookChanges | repository/repository.go:520-526 | a change to an immutable column is recorded (and never written) exactly when a hook altered that field of the base |
| RepositoryLaws.CreatorIsRecordedNotWritten | repository/repository.go:520-526 | an update whose hook sets the creator succeeds and records that change, and the row keeps its creator |
| RepositoryLaws.DeletionMarksTheRow | repository/repository.go:337-371 | only the four deletion columns change, and the row is then deleted exactly when the entity at the write says so |
| RepositoryLaws.ClearedDeleteLeavesTheRow | repository/repository.go:337-371 | a delete whose hook clears the deletion time succeeds, and the row is not deleted |
| RepositoryLaws.SkippedStepsAreAbsent | repository/options.go:68-74 | a skipped stage never appears in a trace, and nothing outside the pipeline does |
| RepositoryLaws.QuietHooksChangeNoImmutables | repository/repository.go:520-526 | an update whose hooks leave the base alone records no change to an immutable column |
| RepositoryLaws.OperationsRunAsDocumented | repository/repository.go:159-375 | a successful operation that skips nothing runs hooks, validation and write in the order that the lifecycle documentation gives |
| RepositoryRows.UpdateStampsTheRow | repository/repository.go:220-251 | after an update whose hooks leave the base alone the row has the clock's time and the actor as its last change, the caller's name, description and metadata, and its identity, creation and deletion as before, whatever the caller's entity held |
| RepositoryRows.CreateStampsTheRow | repository/repository.go:165-202 | after such a create the row is created and last changed by the actor at the clock's time, with the given or generated id and with metadata even when none was given |
| RepositoryRows.DeletionStampsTheRow | repository/repository.go:333-371 | after such a delete or restore the row was last changed by the actor at the clock's time; a deleted one was deleted then and by that actor, a restored one has no deletion left |
| RepositoryRows.WrittenColumnsHoldTheEntity | repository/repository.go:243-251 | any written column holds the entity's field and any other is as it was |
| SoftDeleteWrites.DeletionIsProtocolStep | repository/repository.go:332-371 | a successful delete or restore of the repository passes the guard of the protocol's delete or restore and has its effect |
| SoftDeleteWrites.UpdateIsProtocolStep | repository/repository.go:243-251 | a successful update passes the protocol's guard and leaves the deletion mark alone |
| SoftDeleteWrites.CreateIsProtocolStep | repository/repository.go:159-202 | a successful create is the protocol's insertion with the deletion time that the entity has when it is inserted; nothing clears one that the caller set |
| SoftDelete.StepKeeps | repository/repository.go:159-375 | every step of every client keeps the invariant of locks, pending changes and history |
| SoftDelete.EveryRowLivesLegally | repository/repository.go:159-375 | after any interleaving of any number of clients the committed changes of every row are a legal life that ends in the committed row |
| SoftDelete.DeletionTimeStays | repository/repository.go:337-371 | a committed deletion time, by a deletion or by the insertion, stands until a restore or force-delete |
| SoftDelete.DeletionsAlternate | repository/repository.go:358-371 | after a deletion, or an insertion with a deletion time, no deletion or update commits before a restore or force-delete |
| SoftDelete.RestoresAlternate | repository/repository.go:358-371 | after a restore, or an insertion without a deletion time, no restore commits before a deletion or force-delete |
| SoftDelete.FirstRestoreNeedsADeletion | repository/repository.go:159-371 | the first restore after an insertion is preceded by a deletion exactly when the inserted entity had no deletion time |
| SoftDelete.RestoreWithoutADeletion | repository/repository.go:159-371 | creating and restoring a row with no deletion between commits exactly when the entity was created with a deletion time |
| OperationPrograms.CallsAreTheEarlyRegistrations | database/transaction.go:52-67 | in every run of every program, every transaction calls exactly the callbacks registered before its end for the way it ends, once for each registration and in order, whatever is registered later |
| OperationPrograms.CalledExactlyWhenRegistered | database/transaction.go:52-67 | a callback is called exactly when it was registered before the end of its transaction, for the way that it ends |
| OperationPrograms.OneTerminalHookRuns | repository/repository.go:407-423 | in every run of every program, of a commit and a rollback hook registered before their transaction ends, the one for its fate is called, once for each registration, and no hook of the other kind is |
| OperationPrograms.OperationRegisters | repository/repository.go:321-354 | an operation that gets past its find registers both terminal hooks with the transaction it runs in |
| OperationPrograms.OperationGetsOneTerminalHook | repository/repository.go:159-375 | an operation with any hooks that gets past its find, wherever a program runs it, in its own transaction or joined at any depth, behind any other steps: of its two terminal hooks the one for the fate of that transaction is called, as often as it was registered, and no hook of the other kind is |
| LateHooks.OperationInAHookGetsNone | database/transaction.go:121-139 | of any frame, an operation that any of its terminal callbacks starts in the ended transaction registers both of its hooks there, and the transaction still calls only the snapshot taken before: a hook that was not registered before the end is never called |
| LateHooks.CreateInACommitHook | repository/repository.go:159-187 | creating an entity in an after-commit hook registers both terminal hooks, and the only call of the transaction is the outer hook although it has committed |
| Endpoints.RequestGetsOneTerminalHook | api/resource.go:247-321 | the operation of a request gets its one terminal hook at the end of the request's transaction: the rollback hook when anything in the request, before or after it, keeps the transaction from committing |
| Endpoints.RefusedRequestWritesNothing | api/resource.go:247-321 | a request that cannot build or find its entity, is not authorised or fails its before-hook never reaches the repository's operation nor the serializer, returns the first failure in front and leaves its database as it was |
| Endpoints.EachGuardRefuses | api/resource.go:247-321 | guard by guard, for building or finding, authorising, the before-hook and, in an update, the input, in that order: one that fails is the last step to run, and the request leaves its database as it was |
| Endpoints.CommitHookFailsAfterTheWrite | database/transaction.go:62-67 | a failing commit hook makes the call return its error although the write stands |
| Endpoints.ErrorsAndWrites | api/resource.go:247-331 | an error means an unchanged database for exactly those requests that do not commit, or write nothing, or whose after-commit hooks and serializer return no error by themselves |
| Endpoints.RequestOutcome | api/resource.go:247-331 | a request that does not commit returns an error and leaves its database as it was; one that commits publishes all its writes and returns the errors of its after-commit hooks, or else that of the serializer |
| Endpoints.QuietRequestIsAtomic | api/resource.go:247-331 | with after-commit hooks and a serializer whose text shows that they cannot fail, a request returns an error exactly when it does not commit, and then its database is unchanged |
| Endpoints.SerializerFailsAfterTheWrite | api/resource.go:268-271 | a failing serializer makes a request return an error although its write stands |
| QueryDefinition.WithDefaults | query/query.go:91-107 | defaults are completed, the filters in the array that every copy of the definition shares |
| QueryDefinition.DefaultsAreStable | query/query.go:91-107 | completing twice, as Parse does, is completing once |
| QueryDefinition.Validate | query/query.go:109-168 | the loops with their sets and maps report the first fault of the completed definition |
| QueryDefinition.NoFaultIsValid | query/query.go:109-168 | there is no fault exactly when names, columns, types, operators and sorts are well formed, distinct and consistent |
| QuerySort.ParseSort | query/query.go:350-375 | the loop returns exactly what the sort grammar gives, or its first error |
| QuerySort.SortParsesExactlyPrinted | query/query.go:350-375 | on a valid definition the parser accepts exactly the printed non-empty duplicate-free lists over declared fields, and returns the list that was printed |
| QuerySort.ResolveDefaultSort | query/query.go:377-388 | default sorts get the declared columns |
| QueryFilter.KeyIsRead | query/query.go:88 | a written filter key is read into its name and operator |
| QueryFilter.ReadKeyIsWritten | query/query.go:88 | every key that matches the pattern is the written form of its parts |
| QueryFilter.ParseFilterValue | query/query.go:298-324 | lists for `in`, single non-empty values otherwise, or the first error |
| QueryFilter.ValueIsTyped | query/query.go:298-348 | a parsed value has the field's type, or is a non-empty list of such values for `in` |
| QueryParse.Parse | query/query.go:170-246 | the outcome is that of the specification for the sorted keys of the request, whatever order the map lists them in, and the shared filters are completed |
| QueryLaws.FiltersFollowKeys | query/query.go:209-244 | every filter key contributes its filter, in the order of the keys |
| QueryLaws.AcceptedRequestFits | query/query.go:170-246 | an accepted request has a positive page, a page size within the maximum, declared columns and operators, and values of the right types |
| QueryValues.IntegerIsRead | query/query.go:336 | a number is read from exactly the numerals that, without plus sign and leading zeros, are its own, within 64 bits |
| QueryValues.ScalarIsRead | query/query.go:326-348 | a text is read as exactly the value it stands for: itself, a flag by its word, an integer by its numeral, and the other types by their library parsers |
| QueryValues.FilterIsRead | query/query.go:298-324 | a filter's parameters are read as exactly what they stand for: for in the list of what the parts between all the commas stand for, and otherwise one value given once |
| QueryValues.PrintedListIsRead | query/query.go:298-324 | lists of texts, flags and integers survive being printed and read |
| QueryValues.AcceptedRequestMeansItsText | query/query.go:170-246 | in an accepted request page and page size are the numbers written or the defaults, the search is the text given, and every filter has the field, operator and value that its key and parameters stand for |
| QueryValues.DocumentedDefaults | query/query.go:91-107 | page 1 of 25 rows unless asked otherwise, and never more than 100, when the definition sets nothing |
| QueryValues.AcceptedOperatorsFitTheirTypes | query/query.go:418-431 | every filter of an accepted request has only operators of its value type |
| QueryDocumentation.QueryParameters | api/resource_openapi.go:10-37 | the documented parameters and their schemas, in order |
| QueryDocumentation.AcceptedIsDocumented | api/resource_openapi.go:10-37 | on a valid definition a parameter can be used in some accepted request exactly when it is documented or is the explicit form of equality |
| QueryDocumentation.PerPageBoundsAreDocumented | api/resource_openapi.go:12-17 | `per_page` accepts exactly the integers between the documented bounds |
| QueryApply.Apply | query/query.go:248-287 | one condition per filter, the search condition and the order, from filters whose type assertions cannot fail |
| QueryApply.AcceptedRequestSelects | query/query.go:248-287 | the filters of an accepted request satisfy every type assertion, and the conditions select the rows that meet each filter and hold the searched text in some searchable column |
| QueryOrder.OrdersMean | query/query.go:278-286 | the ORDER BY puts one row before another exactly when the sorts ask for it: at the first in which they differ the smaller value, or the greater one when descending |
| QueryOrder.AcceptedRequestOrders | query/query.go:350-388 | an accepted request orders rows as its text asks, part by part, descending after a dash, over the declared columns, and without the parameter by the definition's own sorts |
| Like.EscapedPatternIsContainment | query/query.go:266-296 | a text matches the pattern built from a value exactly when it contains the value literally, up to letter case |
| Like.UnescapedWildcardsMatchMore | query/query.go:293-296 | without escaping, a wildcard would match a text that does not contain it |
| Paging.PageCountIsExact | api/resource.go:229-232 | for every total below 2^53 and every page size the floating-point page count is the integer ceiling, for any monotone rounding exact on integers and within half a unit of relative precision |
| Paging.OneRowPages | api/resource.go:229-232 | with one row a page the count is right, for every total, exactly when the total is a float64 |
| Paging.PageCountLosesAPage | api/resource.go:229-232 | with one row a page, rounding half to even makes the count one too small at a total of 2^53 + 1 |
| Paging.OffsetIsExact | query/query.go:289-291 | the offset is the intended one exactly when that fits in 64 bits |
| Paging.FarPageRepeatsTheFirst | query/query.go:289-291 | a page number past 2^62 wraps around to the first page |
| Paging.PageHasRows | query/query.go:289-291 | a page whose offset does not wrap has rows exactly when it is one of the needed pages |
| Paging.PagesPartitionTheRows | api/resource.go:220-232 | pages 1 to the reported count list every row once in order, without wrap-around, and later pages are empty unless their offset wraps |
| GeneratorWrites.Session.PrepareFile | generate/generator.go:283-303 | the transformers, the marker check and the formatter change one element in place |
| GeneratorWrites.Session.RunPreflight | generate/generator.go:281-322 | the first loop prepares every file in place and returns the first failure |
| GeneratorWrites.Session.WriteFiles | generate/generator.go:280-351 | a preflight failure leaves the disk unchanged and returns no path; a failing write k leaves exactly the files before it replaced and returned |
| GeneratorWrites.PreflightMeans | generate/generator.go:282-322 | the preflight succeeds exactly when every file can be prepared, no destination repeats and none is in the way |
| GeneratorWrites.PreparedIsFinal | generate/generator.go:283-303 | a file is prepared exactly when its content through all transformers in turn keeps the marker of a managed file and formats if it is Go, and that result is the content it gets |
| GeneratorWrites.WrittenFilesAreFinal | generate/generator.go:323-350 | every written path holds that content |
| GeneratorWrites.ExactlyTheWrittenFilesChange | generate/generator.go:323-350 | the written paths hold their final contents and every other path is as it was |
| GeneratorWrites.OnlyManagedFilesAreReplaced | generate/generator.go:309-321 | without force, an existing file is replaced only if it is managed and still carries the marker |

## Left out

- RepositoryLaws.UpdateWritesItsChanges: one writer, and hooks that keep the entity's id; two concurrent updates of one
  row can each describe a row the other has since changed. Times are compared as instants, without clock readings.
- SoftDelete.EveryRowLivesLegally: the deletes, restores and updates of the protocol are those whose hooks leave
  `model.Base` alone; isolation is read committed with row locks held to the end of the transaction.
- Endpoints.ErrorsAndWrites: the serializer itself neither writes to the request's database nor opens a transaction of it,
  and no frame of another database lies around a use of it.
- ConcurrentApply.EachUpCommitsOnce: no concurrent Rollback, whose delete does not check the affected rows;
  the statements of an Up take effect at its commit, on the schema that is committed then.
- Names.ParseSingular: names and field specifications are ASCII; other letters depend on the library's case tables.
- Clone.Memory.Clone: finite trees of maps, slices and pointers over scalars; the program copies struct values inside
  them shallowly, and those are not part of this model.
- Model types: field names are ASCII, where the two `snakeCase` functions agree; `model.Base` is embedded directly in the
  model, at any position; Bun's own default column names are not part of this model.
- The syntax of floating-point column defaults is a parameter known only to have the shape of a number.
- Hooks act on the entity: one that overwrites the change record of its context or writes to the same table itself is not
  modelled. Bun's SQL is reads, guarded writes and an error of the database's choosing.
- Nil receivers and entities, Save (a choice between create and update) and the read-only queries FindBy, First, All,
  Exists and Count are single branches.
- Panics in transaction callbacks, context cancellation, mutexes, and callbacks that keep an outer context; a callback
  runs with the context of its own frame.
- Each Apply runs outside any enclosing transaction, and migration names compare byte by byte, as with the C collation.
- The registry's sequence counter does not wrap around at 2^64.
- The library parsers for floats, UUIDs, dates and timestamps in filters are parameters, as are the database's comparison
  and case folding, which is taken character by character; columns named by a request hold no NULL.
- The result order is fixed between pages; how Bun narrows the offset is not part of this model.
- Creating directories and writing the temporary file of a generated file are one step that succeeds or leaves its target
  alone; other processes do not touch the files meanwhile.
- The rest of the framework (Go-source templates, configuration, mail, jobs, health checks, observability, the command
  line, HTTP middleware and error mapping) wraps libraries or is settled by reading one branch.
