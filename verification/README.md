# Skardi, modelled and proved in Dafny

This project models the parts of Skardi where a mistake would lose, duplicate or
misplace data, and proves what those parts guarantee, for every input and every
run. `dafny verify dfyconfig.toml` checks all of it.

**Batch jobs.** `Ledger` is the run ledger. `JobProtocol` is the job executor as a
state machine: submitters, cancellers, one task per run, the timeout, the
destination's atomic commit, crashes and restarts interleave over the ledger, the
cancel-flag map and the destination tables; one event is one await or one access
to an atomic or a mutex, and any ledger write may fail. `JobSafety`,
`JobCancel`, `JobConservation` and `JobProgress` prove theorems about every list
of events that can happen, and `JobHistory` says of every column of every row what
the events put there. `JobExecutor` is the same executor with its objects on the heap:
every method is proved to be one step of the state machine, so the theorems hold
of it, and `RunJobTask` is the whole task. `Streams` is the stack of stream
adapters below a database write, and `TableRef` the statement that write runs.

**SQL templates.** `TemplateScanner` is the CLI's scanner, `TemplateReaders` and
`QuestionMarks` the functions that list a template's parameters and put question
marks in their places, with `SpelledNames` on what they take for a name, and
`Substitution` the chains of replacements in the server
and in the job executor. `OnePass`, `OrderFreedom` and `StrayCounts` say of any
template when such a chain is a single pass, when the order of the list is free, and
how a chain that went wrong can be told; `SubstitutionLaws` and `TemplateSafety` say
it of the values and of the template alone. `SqlValues` is the printing and reading
of parameter values, `SqlLexing` a lexer for SQL text, `CliRender` the CLI's
renderer, `TokenStructure` what it does to the tokens of a template, `Floats` the
writing and reading of decimal text, `JsonNumbers` how the two sides print a number, `RendererAgreement` the CLI against the server,
and `SqlValidator` the validator with its own way of finding placeholders.

**Column inference and descriptions.** `PlaceholderColumns` is the walk that finds
the column each parameter is compared with, and `RecordedColumns` what it records
place by place. `Semantics` is the merge of descriptions from the context and the
overlay files, and `SemanticsFacts` what the merge takes from them.

Where the code and its comments differ, the model follows the code:

- The status `Failed` is documented as leaving the destination as it was
  (`crates/skardi/src/jobs/store.rs:45-46`). After a crash between the commit and
  the terminal write the row is `failed` and the rows are there
  (`JobProgress.CommitThenCrashIsMarkedFailed`; the exact condition is
  `JobSafety.DisagreementIsExact`).
- `cancel` is documented as reaching the task before it commits
  (`crates/skardi/src/jobs/executor.rs:300-301`). It can answer true for a run that
  succeeds (`JobProgress.LateCancelStillSucceeds`). A run ends cancelled exactly
  when the flag was set before the outcome match read it
  (`JobCancel.StatusIsExact`), and a cancel keeps it from committing exactly when
  the sink had not reached the end of the stream
  (`JobCancel.CancelPreventsCommitExactly`).
- The staging table of a database write is documented as never leaking
  (`crates/skardi/src/jobs/destination/sql_dml.rs:115-117`). A timeout leaks it, and
  nothing else does (`JobProgress.TimeoutLeaksStaging`,
  `JobProgress.StagingTablesAreExact`).
- A write of zero rows is documented as skipping the INSERT
  (`crates/skardi/src/jobs/destination/sql_dml.rs:96-100`). The code runs it, and
  it can fail like any other (`Streams.WriteOfNothing`).
- Both replacement loops ask for the longest names first
  (`crates/server/src/pipeline_handlers.rs:525-526`). With braces around the names
  the order of the list is free exactly when, whatever is filled in, no other
  parameter's placeholder begins in literal text or in a value
  (`OrderFreedom.ServerOrderIsFreeExactly`).
- The CLI's reading of a value is documented as the same on both sides
  (`crates/cli/src/pipeline.rs:258-277`). The SQL is not the same for booleans, for
  integers beyond 63 bits, and for floats that the server writes with an exponent or
  whose shortest decimal is not exact (`RendererAgreement.CliAndServerAgreeExactly`,
  `JsonNumbers.SmallFloatDiffers`, `JsonNumbers.LargeIntegersDiffer`).
- The validator's error text says that CREATE, DROP, ALTER and TRUNCATE are not
  permitted on any data source (`crates/skardi/src/sources/sql_validator.rs:41-43`).
  It has a case for fourteen kinds; the others, such as DROP FUNCTION, pass, and so
  does MERGE into a read-only table (`SqlValidator.StatementIsRefusedExactly`,
  `SqlValidator.ReadOnlyIsKeptExactly`, `SqlValidator.SomePass`).
- `is_empty` of the semantics registry is documented as true when no description
  was registered (`crates/skardi/src/semantics.rs:408-410`). An entry that describes
  nothing makes it false (`Semantics.EmptyExactly`, `Semantics.BareEntryIsNotEmpty`).

## Model

| member | source | states |
|---|---|---|
| `Ledger.StatusReadsBackExactly` | crates/skardi/src/jobs/store.rs:60-80 | a stored text is read as a status exactly when it is that status's own text, and the five texts are these |
| `Ledger.SqliteJobStore.CreateRun` | crates/skardi/src/jobs/store.rs:219-247 | a new row is inserted, and a second row with the same id is refused and changes nothing |
| `Ledger.SqliteJobStore.UpdateStatus` | crates/skardi/src/jobs/store.rs:315-353 | the status is overwritten, every other column only where a value is given, which then wins; an unknown id is no error; no other row changes |
| `Ledger.SqliteJobStore.ReconcileOrphaned` | crates/skardi/src/jobs/store.rs:355-374 | exactly the rows that are not terminal become failed with the reason, and their number is returned |
| `JobProtocol.InvAlways` | crates/skardi/src/jobs/executor.rs:190-314 | the invariant that ties row, flag, task, commits and staging table of each run together holds after any events |
| `JobProtocol.StepKeepsInv` | crates/skardi/src/jobs/executor.rs:516-641 | every step of every party keeps the invariant of every run |
| `JobProtocol.OthersKept` | crates/skardi/src/jobs/executor.rs:190-314 | a step about one run changes nothing that the state holds about another |
| `JobProtocol.ActKeeps` | crates/skardi/src/jobs/executor.rs:516-641 | each phase of the task hands over what the next one relies on |
| `JobProtocol.TaskHoldsItsFlag` | crates/skardi/src/jobs/executor.rs:282-294 | a live task's flag is in the map and can be read |
| `JobProtocol.InsertedFlagIsNew` | crates/skardi/src/jobs/executor.rs:269-274 | the flag inserted by a submission replaces none |
| `JobProtocol.EndedHoldsWholeQuery` | crates/skardi/src/jobs/destination/mod.rs:112-124 | a sink that saw the end of the stream holds all batches of the query |
| `JobSafety.LedgerIsTruthful` | crates/skardi/src/jobs/executor.rs:577-636 | a run commits at most once, all rows of its query into its own table, and still has its row; counts in the ledger are what landed; succeeded rows have one and failed rows have none |
| `JobSafety.FlagMapIsExact` | crates/skardi/src/jobs/executor.rs:269-294 | the flag map holds exactly the runs with a live task or one about to be spawned: no entry leaks |
| `JobSafety.RowsMoveForward` | crates/skardi/src/jobs/store.rs:315-374 | whatever happens, crashes and restarts included, rows stay, no column loses its value, the status only moves forward, and a terminal row never changes |
| `JobSafety.DisagreementIsExact` | crates/skardi/src/jobs/executor.rs:577-636 | rows have landed without a count in the ledger exactly when the task has yet to record them, or a crash or a failed terminal write fell between commit and row |
| `JobSafety.OpenRowsAreExact` | crates/skardi/src/jobs/executor.rs:577-640 | while the server is up a row is open exactly when somebody will still write its terminal status, or that write failed since the start |
| `JobSafety.RestartClosesEveryRow` | crates/server/src/server.rs:182-213 | after a start that succeeds every row is terminal and nobody has submitted yet |
| `JobSafety.CancelWins` | crates/skardi/src/jobs/executor.rs:302-314 | a cancel that sets the flag before the outcome match reads it keeps the run from ever becoming succeeded or failed while the server lives, and the terminal write is cancelled |
| `JobSafety.EarlyCancelCommitsNothing` | crates/skardi/src/jobs/destination/mod.rs:112-124 | a cancel that sets the flag before the sink has seen the end of the stream keeps the run from ever committing |
| `JobCancel.StatusIsExact` | crates/skardi/src/jobs/executor.rs:577-636 | the task chooses cancelled exactly when somebody had set the flag before the outcome match read it, else succeeded exactly when the rows landed, else failed; a row is cancelled or succeeded exactly when that was written |
| `JobCancel.CancelPreventsCommitExactly` | crates/skardi/src/jobs/executor.rs:302-314 | a cancel of a run that has committed nothing keeps it from ever committing exactly when the sink has not reached the end of the stream |
| `JobCancel.CommitHeedsNoFlag` | crates/skardi/src/jobs/destination/mod.rs:65-73 | from the end of the stream on the commit can go ahead with all rows of the query, whatever the flag holds |
| `JobHistory.LedgerIsToldByEvents` | crates/skardi/src/jobs/executor.rs:248-636 | the ledger has a row for exactly the accepted runs, and each of its ten columns is what the events say: what was asked for and when, when the running write went through, when the outcome was read, how many rows landed as which snapshot, or the reason why not; a row that a restart found open says that instead |
| `JobHistory.TimeoutStrikesExactly` | crates/skardi/src/jobs/executor.rs:543-574 | the limit of a run can strike exactly from the first look at its flag until its work has ended, and only if it is above zero |
| `JobHistory.TimeoutNeedsALimit` | crates/skardi/src/jobs/executor.rs:566-574 | only a run with a limit above zero is ever timed out |
| `JobConservation.Conservation` | crates/skardi/src/jobs/executor.rs:543-636 | after any events a table has grown by the counts in the ledger, plus what landed and is not recorded yet, plus what crashes and failed writes lost sight of |
| `JobConservation.ConservationWithoutFaults` | crates/skardi/src/jobs/executor.rs:543-636 | without crashes and failed terminal writes the ledger and the tasks under way account for every row |
| `JobConservation.UncountedRowsLeftNothing` | crates/skardi/src/jobs/executor.rs:577-636 | then a failed row, or a cancelled row without a count, committed nothing |
| `JobConservation.GrowthIsSumOfShares` | crates/skardi/src/jobs/destination/mod.rs:65-73 | what a reader of the table sees is the sum of what each run landed |
| `JobProgress.EveryTaskEnds` | crates/skardi/src/jobs/executor.rs:516-641 | under any interleaving a live task takes a bounded number of steps and always has one to take; whichever way it ends, its flag is gone and its row is terminal, unless the terminal write failed |
| `JobProgress.StepsAreBounded` | crates/skardi/src/jobs/executor.rs:516-641 | the steps a task has taken and those it may still take never exceed its measure |
| `JobProgress.StagingTablesAreExact` | crates/skardi/src/jobs/destination/sql_dml.rs:115-146 | a staging table is registered exactly while its run writes to a database, or after a timeout dropped that write |
| `JobProgress.TimeoutLeaksStaging` | crates/skardi/src/jobs/destination/sql_dml.rs:115-146 | a run that timed out in its write, ended and was recorded as failed, with its staging table still registered |
| `JobProgress.LateCancelStillSucceeds` | crates/skardi/src/jobs/executor.rs:302-314 | a run in which cancel finds and sets the flag and the row still becomes succeeded |
| `JobProgress.CommitThenCrashIsMarkedFailed` | crates/skardi/src/jobs/store.rs:355-374 | a run whose rows are in the table and whose row is failed |
| `JobExecutor.JobServer.Start` | crates/server/src/server.rs:182-213 | the ledger is reconciled before anybody can submit; this is the machine's restart step |
| `JobExecutor.JobServer.Die` | crates/server/src/server.rs:182-213 | only ledger and destinations survive; this is the machine's crash step |
| `JobExecutor.JobServer.SubmitCreateRow` | crates/skardi/src/jobs/executor.rs:248-267 | the pending row is stored or the submission ends; this is the machine's step |
| `JobExecutor.JobServer.SubmitInsertFlag` | crates/skardi/src/jobs/executor.rs:269-274 | one new flag is shared by the map and the submitter; this is the machine's step |
| `JobExecutor.JobServer.SubmitSpawn` | crates/skardi/src/jobs/executor.rs:276-297 | the task takes over the submitter's flag; this is the machine's step |
| `JobExecutor.JobServer.CancelFind` | crates/skardi/src/jobs/executor.rs:302-307 | the flag found under the lock is the run's own, or there is none; this is the machine's step |
| `JobExecutor.JobServer.CancelStore` | crates/skardi/src/jobs/executor.rs:307-313 | the store reaches the one flag that the task reads; this is the machine's step |
| `JobExecutor.JobServer.TaskMarkRunning` | crates/skardi/src/jobs/executor.rs:527-541 | the running write is attempted and a failure of it changes nothing else; this is the machine's step |
| `JobExecutor.JobServer.TaskCheckCancel` | crates/skardi/src/jobs/executor.rs:543-546 | the first reading of the flag; this is the machine's step |
| `JobExecutor.JobServer.TaskPlan` | crates/skardi/src/jobs/executor.rs:547-560 | planning fails or the write begins, with a staging table for a database; this is the machine's step |
| `JobExecutor.JobServer.TaskPoll` | crates/skardi/src/jobs/destination/mod.rs:112-124 | the flag is read before the query's stream is asked; this is the machine's step |
| `JobExecutor.JobServer.TaskSinkFail` | crates/skardi/src/jobs/destination/sql_dml.rs:124-148 | the write ends with an error and drops its staging table; this is the machine's step |
| `JobExecutor.JobServer.TaskCommit` | crates/skardi/src/jobs/destination/mod.rs:65-73 | all rows land at once and are counted; this is the machine's step |
| `JobExecutor.JobServer.TaskTimeout` | crates/skardi/src/jobs/executor.rs:566-574 | the write is dropped half-way; this is the machine's step |
| `JobExecutor.JobServer.TaskReadOutcome` | crates/skardi/src/jobs/executor.rs:576-636 | the outcome match reads the flag and fixes the terminal update; this is the machine's step |
| `JobExecutor.JobServer.TaskRecord` | crates/skardi/src/jobs/executor.rs:584-635 | the terminal write is attempted and a failure of it changes nothing else; this is the machine's step |
| `JobExecutor.JobServer.TaskDropFlag` | crates/skardi/src/jobs/executor.rs:638-640 | the run's flag leaves the map; this is the machine's step |
| `JobExecutor.JobServer.RunJobTask` | crates/skardi/src/jobs/executor.rs:516-641 | a task on its own commits the query's rows, or nothing if it was cancelled or its query fails, and its row is given column by column, whichever of the two ledger writes fail |
| `Streams.RawStream.PollNext` | crates/skardi/src/jobs/destination/mod.rs:112-124 | the query's own stream gives its answers in order and is then done |
| `Streams.CancellableStream.PollNext` | crates/skardi/src/jobs/destination/mod.rs:112-124 | with the flag set every poll fails and nothing is taken from the query; without it the answer is the query's |
| `Streams.CountingStream.PollNext` | crates/skardi/src/jobs/destination/sql_dml.rs:164-215 | batches pass unchanged, the counter is the number of rows let through, and the size warning is logged once, when the limit is reached |
| `Streams.SingleUsePartitionStream.Execute` | crates/skardi/src/jobs/destination/sql_dml.rs:226-260 | the stream is handed out to the first caller only |
| `Streams.EndIsSeenExactly` | crates/skardi/src/jobs/destination/mod.rs:65-73 | the sink sees the end exactly when nobody cancels before its last poll, the query does not break and it takes every batch; then it has all of them |
| `Streams.SinkSeesPrefix` | crates/skardi/src/jobs/destination/mod.rs:92-95 | whenever a cancel falls, what the sink gets is a beginning of the query's batches |
| `Streams.Consume` | crates/skardi/src/jobs/destination/sql_dml.rs:124-135 | the sink's loop gets what the stream stack yields, and the counter is the rows of it |
| `Streams.Insert` | crates/skardi/src/jobs/destination/sql_dml.rs:124-135 | the INSERT lands all rows of the query or none, and none unless it succeeds |
| `Streams.Write` | crates/skardi/src/jobs/destination/sql_dml.rs:88-162 | a write that runs to its end returns the query's row count and lands those rows exactly when nothing disturbs it, else it lands nothing; the staging table is gone either way |
| `Streams.WriteOfNothing` | crates/skardi/src/jobs/destination/sql_dml.rs:124-161 | a query without rows still runs its INSERT: a missing table or a failed commit is an error |
| `Streams.ProtocolPollsAreTheStack` | crates/skardi/src/jobs/destination/mod.rs:112-124 | the poll steps of the job protocol come to what the stream stack gives the sink |
| `TableRef.DottedNameSurvives` | crates/skardi/src/jobs/destination/mod.rs:132-141 | quoting keeps a dotted name: lexed, it is its parts as delimited identifiers, in order |
| `TableRef.InsertHasFixedShape` | crates/skardi/src/jobs/destination/sql_dml.rs:121-127 | no table name, however spelt, changes the shape of the INSERT statement |
| `TemplateScanner.ScanSegments` | crates/cli/src/pipeline.rs:130-170 | the loop gives the recursive decomposition into literals and placeholders |
| `TemplateScanner.ScanRestores` | crates/cli/src/pipeline.rs:130-170 | putting the braces back gives back any input |
| `TemplateScanner.ScanIsCanonical` | crates/cli/src/pipeline.rs:120-123 | names are identifiers, and literals are not empty, do not touch, and hide no placeholder |
| `TemplateScanner.ScanInvertsRestore` | crates/cli/src/pipeline.rs:130-170 | scanning the text of canonical segments gives those segments |
| `TemplateScanner.ScanIsTheOnlyDecomposition` | crates/cli/src/pipeline.rs:125-129 | there is no other canonical decomposition of a template |
| `TemplateScanner.EveryPlaceholderIsFound` | crates/cli/src/pipeline.rs:120-129 | every `{ident}` anywhere in the input is one placeholder, and the text around it is scanned as if alone |
| `TemplateScanner.BracesOpenExactly` | crates/cli/src/pipeline.rs:130-170 | every brace of a template opens a placeholder exactly when the scanner leaves no brace in the literal text |
| `SpelledNames.WordCharactersAreListed` | crates/cli/src/pipeline.rs:139-148 | the ASCII characters of a name are the 63 listed ones and no others |
| `SpelledNames.FoundExactly` | crates/cli/src/pipeline.rs:127-171 | the scanner finds a placeholder exactly where characters of a name, one or more, stand between braces |
| `SpelledNames.UserIdIsFound` | crates/cli/src/pipeline.rs:127-171 | `{user_id}` is one placeholder for both readers |
| `TemplateReaders.ExtractParamNames` | crates/cli/src/pipeline.rs:250-260 | the loop lists the names of the placeholders, each where it first stands |
| `TemplateReaders.ParameterOrder` | crates/skardi/src/pipeline/inferencer.rs:157-169 | the loop over the matches lists the captured names, each where it first stands |
| `TemplateReaders.FirstSeenHasAll` | crates/cli/src/pipeline.rs:250-260 | such a list has all the names and no others |
| `TemplateReaders.FirstSeenIsDistinct` | crates/cli/src/pipeline.rs:250-260 | such a list has no name twice |
| `SpelledNames.FirstSeenKeepsOrder` | crates/cli/src/pipeline.rs:250-260 | names are listed in the order in which they first stand in the text |
| `SpelledNames.CapturedExactly` | crates/skardi/src/pipeline/inferencer.rs:150-170 | the inferrer captures exactly the names between braces that consist of the listed characters and do not begin with a digit |
| `TemplateReaders.CapturesAreScannedIdents` | crates/skardi/src/pipeline/inferencer.rs:157-169 | on any template the inferrer captures the scanner's names that are ASCII identifiers, in order |
| `TemplateReaders.ReadersAgreeExactly` | crates/skardi/src/pipeline/inferencer.rs:153-169 | the two lists are the same exactly when every placeholder is an ASCII identifier that does not begin with a digit |
| `QuestionMarks.ConvertNamed` | crates/skardi/src/pipeline/inferencer.rs:153-198 | the whole function: the order of the names, the rewriting of `VALUES {name}`, then the loop over the names |
| `QuestionMarks.MarkingIsOnePass` | crates/skardi/src/pipeline/inferencer.rs:184-197 | on any template the loop over the names is a single pass, because a question mark never completes a name |
| `QuestionMarks.ConversionIsMarking` | crates/skardi/src/pipeline/inferencer.rs:171-197 | on any template the function makes a tuple of VALUES and its placeholder, a question mark of any other captured placeholder, and changes nothing else |
| `QuestionMarks.OneMarkEach` | crates/skardi/src/pipeline/inferencer.rs:171-197 | every captured placeholder adds exactly one question mark |
| `QuestionMarks.NoneIsLeft` | crates/skardi/src/pipeline/inferencer.rs:171-197 | no placeholder is left |
| `SpelledNames.TupleIsRewritten` | crates/skardi/src/pipeline/inferencer.rs:171-182 | VALUES in any mixture of cases that begins no longer word, white space if any, and a placeholder become `VALUES (?)` |
| `SpelledNames.OnlyTuplesMatch` | crates/skardi/src/pipeline/inferencer.rs:171-182 | nothing else does |
| `SqlValues.RefusedExactly` | crates/server/src/pipeline_handlers.rs:568-640 | a value is refused exactly when it is an object, or an empty, ragged or mixed array, each for its own reason |
| `SqlValues.ParamReadsBack` | crates/server/src/pipeline_handlers.rs:499-521 | reading the printed text gives the value back, whatever the strings in it hold |
| `SqlValues.RowsReadBack` | crates/server/src/pipeline_handlers.rs:588-613 | a tuple list is read back as its rows and cells |
| `SqlValues.ScalarReadsBack` | crates/server/src/pipeline_handlers.rs:499-507 | a scalar is read back, with whatever may follow it left over |
| `Substitution.ServerSubstitute` | crates/server/src/pipeline_handlers.rs:551-648 | the server's loop makes one replacement per printable parameter, in order, and reports every missing and every refused one |
| `Substitution.ExecutorSubstitute` | crates/skardi/src/jobs/executor.rs:431-454 | the executor's loop makes one replacement per parameter and stops at the first that is not a scalar |
| `Substitution.SequentialResult` | crates/server/src/pipeline_handlers.rs:551-648 | what the chain of replacements comes to, where no brace of the template's own text opens a listed placeholder once what follows is filled: each placeholder becomes its value with the later parameters put into it |
| `Substitution.SequentialIsOnePassExactly` | crates/server/src/pipeline_handlers.rs:551-648 | there, the chain is a single pass over the template exactly when no placed value holds the placeholder of a later parameter |
| `SubstitutionLaws.PrintedIsTame` | crates/server/src/pipeline_handlers.rs:499-521 | every printed value begins with something other than a brace and ends so that no placeholder can go on behind it |
| `SubstitutionLaws.OrderIsFreeExactly` | crates/server/src/pipeline_handlers.rs:551-648 | there, every order of the list gives the same SQL exactly when no placed value holds the placeholder of another parameter |
| `SubstitutionLaws.BraceFreeValuesAreSafe` | crates/server/src/pipeline_handlers.rs:551-648 | values without an opening brace meet that condition |
| `SubstitutionLaws.OrderCanMatter` | crates/server/src/pipeline_handlers.rs:551-648 | a string that spells another placeholder gives two results in two orders |
| `SubstitutionLaws.StrayBraceMakesPlaceholder` | crates/server/src/pipeline_handlers.rs:551-648 | a stray brace in the template and a plain number give a placeholder that was not there |
| `TemplateSafety.TemplateIsSafeExactly` | crates/server/src/pipeline_handlers.rs:551-648 | the law of the single pass holds of a template for every list of parameters and all values exactly when no brace of its own text is closed around placeholders |
| `TemplateSafety.NoNestingIsSafe` | crates/server/src/pipeline_handlers.rs:551-648 | such a template is safe for all values that the server prints |
| `TemplateSafety.OpeningBracesDoNotNest` | crates/server/src/pipeline_handlers.rs:551-648 | a template in which every brace opens a placeholder is such a template |
| `OnePass.PassIsRightExactly` | crates/server/src/pipeline_handlers.rs:551-648 | one replacement in a template partly filled in puts the value at the parameter's own places and nowhere else exactly when its placeholder begins neither in literal text nor in a value; if it does, the text has gone wrong at a brace |
| `OnePass.DriftForEver` | crates/server/src/pipeline_handlers.rs:551-648 | what has gone wrong once, no later replacement puts right |
| `OnePass.ServerChainIsOnePassExactly` | crates/server/src/pipeline_handlers.rs:551-648 | on every template, the server's chain is a single pass exactly when no replacement finds its placeholder beginning in literal text or in a value put in before |
| `OnePass.EveryOrderExactly` | crates/server/src/pipeline_handlers.rs:551-648 | on every template, each order of the list gives the single pass exactly when, whatever parameters are filled in, no other one's placeholder begins in literal text or in a value |
| `OrderFreedom.ServerOrderIsFreeExactly` | crates/server/src/pipeline_handlers.rs:522-648 | on every template and for all values that the server prints, every order of the list gives the same SQL, whatever that is, exactly then |
| `OrderFreedom.LastAndFirstPart` | crates/server/src/pipeline_handlers.rs:551-648 | else some parameter gives two results, put first and put last |
| `StrayCounts.CountsTellExactly` | crates/server/src/pipeline_handlers.rs:551-648 | on every template the chain is a single pass exactly when it gives as many quotation marks and as many opening braces as that |
| `StrayCounts.OthersStand` | crates/server/src/pipeline_handlers.rs:551-648 | a replacement destroys no placeholder of another parameter |
| `SubstitutionLaws.ReportsCoverTheList` | crates/server/src/pipeline_handlers.rs:551-648 | every expected parameter is missing, refused or substituted, as often as it is listed |
| `SubstitutionLaws.ReportsSayWhy` | crates/server/src/pipeline_handlers.rs:551-648 | a parameter reported as missing was not given, and one reported as refused has a value that is refused for the reason given |
| `SubstitutionLaws.BothLoopsAgree` | crates/skardi/src/jobs/executor.rs:431-454 | with every parameter present and scalar the server's and the executor's loops give the same text |
| `SqlLexing.LexPieces` | crates/cli/src/pipeline.rs:184-201 | SQL text can be lexed piece by piece |
| `SqlLexing.SeparatorLeavesBetween` | crates/cli/src/pipeline.rs:184-201 | white space, a comma or a parenthesis outside quotes and comments is a place where a literal may stand, before it or behind it |
| `SqlLexing.QuotedIsOneToken` | crates/cli/src/pipeline.rs:222-225 | a quoted string is one string literal with the original text, whatever quotes it holds |
| `CliRender.RenderSqlWithInlineParams` | crates/cli/src/pipeline.rs:184-201 | the renderer's loop, stopping at the first placeholder it cannot fill |
| `CliRender.RenderedExactly` | crates/cli/src/pipeline.rs:184-201 | rendering succeeds exactly when every placeholder has a printable value, and is then one pass over the template |
| `CliRender.FirstFailureIsReported` | crates/cli/src/pipeline.rs:188-197 | a failure is that of the first placeholder in the text that cannot be filled: its name if it has no value, else why its value cannot be printed |
| `CliRender.UnprintableExactly` | crates/cli/src/pipeline.rs:206-246 | what cannot be printed is a float that is not finite, or a type that is not supported; a missing value of a type prints as NULL |
| `CliRender.MagnitudeLooks` | crates/cli/src/pipeline.rs:206-215 | a printed float is digits with one point among them, and read as a decimal it is the number |
| `Floats.PointIsPlaced` | crates/cli/src/pipeline.rs:206-215 | the point of a float with a fraction stands where its decimal has it |
| `JsonNumbers.ServerTextMeansTheNumber` | crates/server/src/pipeline_handlers.rs:499-507 | what the server prints, read as a decimal with an exponent if any, is the number that was parsed |
| `JsonNumbers.CliTextMeansTheNumber` | crates/cli/src/pipeline.rs:206-304 | so is what the CLI prints, except that it has the nearest float for an integer beyond 63 bits, and the exact integer for a float without a fraction |
| `JsonNumbers.NearestDoubleIsNearest` | crates/cli/src/pipeline.rs:283-304 | beyond 63 bits no float is nearer than the one taken, and of two the even one is |
| `JsonNumbers.PiIsPrinted` | crates/cli/src/pipeline.rs:258-277 | 3.14 is printed as it is on both sides |
| `JsonNumbers.NumberPrintsAlikeExactly` | crates/cli/src/pipeline.rs:206-246 | the CLI and the server print the same JSON number alike exactly when it is an integer of 64 bits with a sign, or a float that the server writes without an exponent and, if it has no fraction, whose shortest decimal is exact; else the texts part, or the CLI's is longer by `.0` |
| `JsonNumbers.SmallFloatsAreExact` | crates/cli/src/pipeline.rs:206-215 | for floats without a fraction below 2^53 the last condition always holds |
| `JsonNumbers.SmallFloatDiffers` | crates/cli/src/pipeline.rs:206-215 | 1e-6 is written out by the CLI |
| `JsonNumbers.LargeIntegersDiffer` | crates/cli/src/pipeline.rs:283-304 | 2^63 is a float for the CLI, and the integer after it is printed as the same float |
| `RendererAgreement.PrintedAlikeExactly` | crates/cli/src/pipeline.rs:217-304 | any JSON value that is no array or object is printed alike exactly when it is no boolean and no such number |
| `RendererAgreement.CliAndServerAgreeExactly` | crates/cli/src/pipeline.rs:184-304 | on every template, the CLI and the server give the same SQL for the same JSON values exactly when every placed value is printed alike and no replacement finds its placeholder beginning in literal text or in a value; two differences never cancel out |
| `RendererAgreement.AgreementOnSafeTemplates` | crates/cli/src/pipeline.rs:184-304 | on the templates of `Substitution.SequentialResult` the values alone decide: each is printed alike and none holds the placeholder of a later parameter |
| `CliRender.LiteralMeansItsValue` | crates/cli/src/pipeline.rs:206-246 | read back, the tokens of a literal mean the bound value: a string its characters, an integer or a float the number |
| `CliRender.LiteralIsLexed` | crates/cli/src/pipeline.rs:206-246 | between tokens, a literal is lexed as its own tokens and nothing around it changes |
| `TokenStructure.RenderingKeepsTokens` | crates/cli/src/pipeline.rs:172-201 | with well placed placeholders the rendered SQL has the template's tokens, and for each placeholder exactly the tokens of a literal that means the bound value, for all values |
| `TokenStructure.TokensAreKeptExactly` | crates/cli/src/pipeline.rs:172-201 | all values keep the tokens of a template exactly when each of its placeholders is well placed |
| `TokenStructure.MinusBeforeNegativeIsComment` | crates/cli/src/pipeline.rs:184-201 | behind a minus sign a negative number makes a comment |
| `TokenStructure.StringBeforeQuoteRunsOn` | crates/cli/src/pipeline.rs:184-201 | in front of a quote a string runs on into what follows |
| `SqlValidator.PreprocessParameters` | crates/skardi/src/sources/sql_validator.rs:67-90 | the loop ends although the text may grow, and rewrites from each first `{` to the next `}` |
| `SqlValidator.RewritingSpelledOut` | crates/skardi/src/sources/sql_validator.rs:67-90 | text up to the first opening brace stays, from there to the next closing brace `(NULL)` comes in, and an end that is not closed stays |
| `SqlValidator.NoPairIsLeft` | crates/skardi/src/sources/sql_validator.rs:67-90 | afterwards no opening brace stands before a closing one |
| `SqlValidator.PreprocessingIsIdempotent` | crates/skardi/src/sources/sql_validator.rs:67-90 | doing it again changes nothing |
| `SqlValidator.ValidatorSeesPlaceholdersExactly` | crates/skardi/src/sources/sql_validator.rs:67-90 | it rewrites just the placeholders that the scanner finds exactly when every brace that could be closed opens one |
| `SqlValidator.ValidateStatements` | crates/skardi/src/sources/sql_validator.rs:51-65 | a list of statements passes exactly when each one does, and the error is that of the first that does not |
| `SqlValidator.ConfigIsLastSetting` | crates/skardi/src/sources/sql_validator.rs:28-32 | the mode of a table is that of the last setting whose name agrees with it but for case |
| `SqlValidator.StatementIsRefusedExactly` | crates/skardi/src/sources/sql_validator.rs:92-201 | a statement that begins with CREATE, DROP, ALTER or TRUNCATE is refused whatever the settings unless it is of a kind without a case; INSERT, UPDATE and DELETE exactly when the last setting for the table they are judged by, in any upper or lower case, is read-only, naming operation and table; anything else passes |
| `SqlValidator.RefusalNamesTheOperation` | crates/skardi/src/sources/sql_validator.rs:92-160 | a refusal names the operation by the statement's leading word |
| `SqlValidator.DdlIsRefusedByName` | crates/skardi/src/sources/sql_validator.rs:96-138 | the fourteen kinds and the names they are refused under |
| `SqlValidator.QualifiedTablesAreJudged` | crates/skardi/src/sources/sql_validator.rs:140-188 | a write to a table, however qualified its name, is refused exactly when the last setting for the last part of the name is read-only |
| `SqlValidator.CatalogIsNotTheTable` | crates/skardi/src/sources/sql_validator.rs:160-166 | an INSERT into wikidb.public.wiki_pages is refused when wiki_pages is read-only |
| `SqlValidator.NamelessTablesAreJudged` | crates/skardi/src/sources/sql_validator.rs:160-188 | a write to no named table is judged by the setting for the empty name |
| `SqlValidator.ReadOnlyIsKeptExactly` | crates/skardi/src/sources/sql_validator.rs:140-201 | a write to a read-only table is refused exactly when it is an INSERT or UPDATE, or a DELETE whose first table is read-only |
| `SqlValidator.SomePass` | crates/skardi/src/sources/sql_validator.rs:156-160 | DROP FUNCTION passes, and MERGE into a read-only table |
| `PlaceholderColumns.CollectParameterColumns` | crates/skardi/src/pipeline/inferencer.rs:304-348 | the walk over a condition numbers the question marks it understands, in the order of the text |
| `PlaceholderColumns.CollectItems` | crates/skardi/src/pipeline/inferencer.rs:335-345 | so does the loop over an IN list |
| `PlaceholderColumns.CollectLimits` | crates/skardi/src/pipeline/inferencer.rs:232-271 | LIMIT and OFFSET are numbered in the order in which the code looks at them |
| `PlaceholderColumns.CollectQuery` | crates/skardi/src/pipeline/inferencer.rs:217-273 | the condition comes before the limits, and a body that is not a SELECT is passed over |
| `PlaceholderColumns.CollectStatement` | crates/skardi/src/pipeline/inferencer.rs:210-298 | what is numbered in each kind of statement |
| `PlaceholderColumns.ExtractPlaceholderColumns` | crates/skardi/src/pipeline/inferencer.rs:200-301 | one counter runs through all statements |
| `RecordedColumns.ComparisonRecords` | crates/skardi/src/pipeline/inferencer.rs:310-331 | a comparison of a column with a question mark, either way round, records the column; of `table.column` the column; of longer names nothing |
| `RecordedColumns.QualifiedColumnIsRecorded` | crates/skardi/src/pipeline/inferencer.rs:359-377 | `WHERE u.id = {user_id}` records the column id |
| `RecordedColumns.OtherComparisonsRecordNothing` | crates/skardi/src/pipeline/inferencer.rs:310-334 | a question mark compared with anything but a column records nothing |
| `RecordedColumns.InListRecords` | crates/skardi/src/pipeline/inferencer.rs:335-345 | an IN list records its column once for each question mark in it |
| `RecordedColumns.ConditionsAreWalkedThrough` | crates/skardi/src/pipeline/inferencer.rs:327-334 | AND, OR and the like are walked from left to right, and parentheses change nothing |
| `RecordedColumns.ConditionsOfStatements` | crates/skardi/src/pipeline/inferencer.rs:209-298 | WHERE is walked in SELECT, INSERT with SELECT, UPDATE and DELETE, and nothing else of them |
| `RecordedColumns.LimitsRecord` | crates/skardi/src/pipeline/inferencer.rs:232-271 | a question mark for a limit is given `limit`, one for an offset `offset` |
| `RecordedColumns.OthersRecordNothing` | crates/skardi/src/pipeline/inferencer.rs:345-348 | no other expression records anything |
| `RecordedColumns.OthersAreSkipped` | crates/skardi/src/pipeline/inferencer.rs:217-229 | bodies that are no SELECT, other statements and those without a condition record nothing |
| `RecordedColumns.StatementsAreWalked` | crates/skardi/src/pipeline/inferencer.rs:200-301 | statements come one after the other, with numbers from zero |
| `PlaceholderColumns.WalkFollowsTextExactly` | crates/skardi/src/pipeline/inferencer.rs:200-348 | the understood question marks are met in the order of the text exactly when no OFFSET with a question mark is written before its LIMIT with one |
| `PlaceholderColumns.AlignedExactly` | crates/skardi/src/pipeline/inferencer.rs:107-125 | number k is the k-th question mark of the text exactly when, besides, none that is passed over comes before one that is understood |
| `PlaceholderColumns.ParametersGetTheirColumns` | crates/skardi/src/pipeline/inferencer.rs:107-125 | then, with first appearances before repetitions, every parameter is given the column that its first question mark is compared with, or none |
| `PlaceholderColumns.RepeatsKeepPositionsExactly` | crates/skardi/src/pipeline/inferencer.rs:162-169 | with repeated parameters, positions among the distinct names are positions in the text exactly when no parameter first appears after a repetition |
| `PlaceholderColumns.UpdateIsMisaligned` | crates/skardi/src/pipeline/inferencer.rs:275-286 | in `UPDATE t SET price = {price} WHERE id = {id}` the column id is recorded for price |
| `Semantics.ParseInvertsDisplayExactly` | crates/skardi/src/semantics.rs:141-187 | a name parses to a key exactly when the key is well formed and displays as that name |
| `Semantics.SeedEntries` | crates/skardi/src/semantics.rs:280-294 | the loop seeds the map with the context's descriptions |
| `Semantics.MergeColumns` | crates/skardi/src/semantics.rs:451-465 | the inner loop takes in the columns of one source in order, and stops at a second description |
| `Semantics.MergeSource` | crates/skardi/src/semantics.rs:432-466 | so for one source: its name, its description, its columns |
| `Semantics.MergeInto` | crates/skardi/src/semantics.rs:427-468 | so for one file |
| `Semantics.Build` | crates/skardi/src/semantics.rs:274-315 | so for all files, over the seed |
| `Semantics.BuildSucceedsExactly` | crates/skardi/src/semantics.rs:274-315 | building succeeds exactly when every name is usable and nothing is described twice |
| `SemanticsFacts.FactsAreWhatFilesSay` | crates/skardi/src/semantics.rs:427-468 | what is taken from the files is exactly the descriptions, not empty, that their sources give for themselves or a column, under the key that the source's name displays |
| `SemanticsFacts.SourceIsMalformed` | crates/skardi/src/semantics.rs:432-434 | a name cannot be used exactly when no well-formed key displays as it |
| `SemanticsFacts.ContextGivesTheLast` | crates/skardi/src/semantics.rs:280-294 | the context gives a source the last description that is not empty |
| `SemanticsFacts.ErrorNamesBothFiles` | crates/skardi/src/semantics.rs:436-465 | an error names the first name that cannot be used, or the first description that came a second time with the file it is in and the file it was in before |
| `Semantics.RegistryIsTheUnion` | crates/skardi/src/semantics.rs:317-367 | a description is found exactly when some file gives it, or the context does and no file |
| `Semantics.SeedIsContext` | crates/skardi/src/semantics.rs:280-294 | the seed is the last non-empty description of each source, with no origin |
| `Semantics.ReorderingIsIrrelevant` | crates/skardi/src/semantics.rs:274-315 | files, the sources in them and their columns, each in any order, give the same success and the same answer to every lookup |
| `Semantics.OrderIsIrrelevant` | crates/skardi/src/semantics.rs:274-315 | files that say the same in any order build the same registry, or none |
| `Semantics.MostSpecificWins` | crates/skardi/src/semantics.rs:383-406 | a lookup gives the qualified description, else that of the bare source, files before context |
| `Semantics.DomainsStayEqual` | crates/skardi/src/semantics.rs:451-465 | texts and origins are kept for the same columns |
| `Semantics.EmptyExactly` | crates/skardi/src/semantics.rs:408-413 | the registry counts as empty exactly when the context describes nothing and no file has an entry |
| `Semantics.BareEntryIsNotEmpty` | crates/skardi/src/semantics.rs:408-413 | an entry that describes nothing is enough to make it count as not empty |

## Left out

- Substitution.SequentialResult: is about templates in which no brace of the template's own text opens a listed placeholder once what follows is filled; what the chain comes to elsewhere depends on the order of the list.
- Substitution.SequentialIsOnePassExactly: is about the same templates and puts the condition on the values alone; `TemplateSafety.TemplateIsSafeExactly` says for which templates that is, and `OnePass.ServerChainIsOnePassExactly` covers all of them with a condition on template and values together.
- SubstitutionLaws.OrderIsFreeExactly: is about the same templates too; `OrderFreedom.ServerOrderIsFreeExactly` covers all of them.
- JobHistory.LedgerIsToldByEvents: an error is its innermost message; the contexts that `{err:#}` puts in front of it, such as `Destination write failed`, are not part of this model.
- JsonNumbers.NumberPrintsAlikeExactly: takes a float as its shortest decimal, which is within the precision of the float, and takes from the server's printer whether and how it writes an exponent, but never one of zero; how the libraries find the digits is theirs.
- RendererAgreement.CliAndServerAgreeExactly: leaves out arrays and objects in a placeholder, which the CLI quotes as text, and flags that pin a type, such as `n:float=1`, which give the CLI another value than the server.
- TokenStructure.TokensAreKeptExactly: counts a template with a placeholder inside an open quote or block comment as having no tokens to keep.
- JobSafety.CancelWins: does not reach across a crash, after which the row is reconciled to failed; `JobCancel.StatusIsExact` does.
- JobProgress.EveryTaskEnds: assumes a finite query stream and that each await returns; a destination that never answers is not modelled.
- JobExecutor.JobServer.RunJobTask: has no timeout, no sink error and no cancel while it runs; those are steps of their own, and the theorems over event lists cover them.
- Streams.Write: is a write that runs to its end; one dropped by a timeout is a step of the job protocol.
- PlaceholderColumns.ParametersGetTheirColumns: starts from the parsed statement; that the k-th question mark of the text is the k-th of the parsed statement is the SQL parser's business.
- Two things are taken as given: the commit of a destination and the answer of its write are one step, and a write that is dropped does not commit.
- A panic inside the task, such as that of a second execution of the staging stream (`crates/skardi/src/jobs/destination/sql_dml.rs:252-259`): it would leave the flag and the open row behind. The theorems over event lists assume that no step panics.
- A caller that drops the `submit` future between its awaits, and several server processes on one ledger.
- The 64-bit width of row counts; they are natural numbers here.
- The choice between creating and appending to a Lance dataset when two first runs race (`crates/skardi/src/jobs/destination/lance.rs:66-70`): the library decides.
- Submit-time validation, pre-flight and the schema comparison, which end a submission before its row exists; that accepted schemas land in the right columns is not claimed.
- JSON objects and doubly nested arrays inside tuple lists, which the printer passes through.
- The SQL parser, DataFusion, Arrow, HTTP handlers, metrics, auth, YAML loading and the discovery of files.
- Column types: guessing them from context, and looking them up in registered tables.
- The CLI's aliases (`crates/cli/src/alias.rs`) and the wiki demo: their argument loop, default binding, chunking and mirror triggers would add easier members only.
- Error messages and log lines, except the size warning of a database write.
