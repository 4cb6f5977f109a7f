# sqlx-js: a verified model

This Dafny project models the parts of sqlx-js whose correctness is hardest to see from the
code, and proves what they promise. `dafny verify dfyconfig.toml` checks everything.

Code that computes a value is modelled as functions. Code that works by changing state is
modelled as methods and classes with the same fields, branches and loops, each proved equal
to a specification function or step; the results are then proved about the specification,
over every input or every run.

## The components

**Migrations** (`Migration*.dfy`). The planner walks the files once, simulating its own
effect on the history table, after a depth-first walk that finds what applied squash files
supersede and a preflight over all squash files. The main results are convergence (execute a
plan and there is nothing left to plan), the plan said without planning, with the exact
condition for there being one, an exact condition for resuming after any prefix, and the
history of a directory kept by `createSquashMigration`. `applyPending` runs against
a database whose every command may fail and whose commits may lose their answer.

**The managed pool** (`Pool*.dfy`). Generations, operations, deadlines, aborts, poisoning,
recycling and shutdown as a state machine whose steps are JavaScript turns. A lifecycle hook
is any finite sequence of calls made inside a turn, with what those calls go on to do before
they first wait; their own notifications run hooks again. In every reachable state the results
say what never happens (`PoolSafety.dfy`) and what each kind of turn does do
(`PoolProgress.dfy`).

**Extended JSON** (`Json*.dfy`). Documents, the raw trees of their text, canonical decimal
numbers, the tag layer, the snapshot with its budgets, the measuring and the writing pass of
the encoder, and the parser with its index. The grammar is RFC 8259, section 6 for numbers
and section 7 for strings; it is written out once more as trees of text, and the parser
accepts exactly that language within the limits. What the encoder accepts is parsed back
exactly: node counts, depths, number data and bytes of the writing side are those of the
reading side.

**Transactions and savepoints** (`Savepoint*.dfy`). The clients of a transaction and its
nested savepoints, one connection that answers in order, and a server that is a stack of
database states. A query's hook may call the clients again before the query is sent. A run
sends a nested word exactly when no such hook opens a savepoint on the client of its own
query; then a savepoint keeps or loses its effects as its callback decided. Every run sends
COMMIT or ROLLBACK at most once, as the callback of the transaction ended.

**SQL text** (`Sql*.dfy`, `QueryId*.dfy`). The token readers, the rewriting of named parameters
and the normal form behind query identifiers. The tokens are also spelled out in characters,
and the readers find exactly those. What is proved of the rewriting and the normal form is that
reading their output again finds the same tokens: of the normal form, exactly when the query
meets a condition on white space beyond ASCII.

**Literals** (`Pg*.dfy`). Array literals (section 8.15.6 of the PostgreSQL documentation),
composite literals (section 8.16.6) and hstore, as printers and parsers. Arrays are read
exactly by a grammar that is spelled out; composites and hstores also as the server writes
them.

**Publication** (`Publication.dfy`). Renaming prepared artifacts into place on a file system
that may fail at any step, and undoing it. When nothing fails, nothing is left behind.

**Query similarity** (`AlphaCanon.dfy`, `AstDigest.dfy`, `AstShapes.dfy`). The normal form of parse trees and
the numbering of their parameters, which together decide whether two fragments are the same
up to the names of parameters; and, by the shape of a node, what the normal form keeps of it
(`AstShapes.dfy`).

## What the code does that may surprise

- A pool in state `failed` can recover: `PoolSafety.FailedRecovers`.
- A plan that was interrupted inside a group of replaced migrations cannot be resumed:
  `MigrationLimits.ResumeCanFail`; `MigrationPlan.ResumeExactly` gives the exact condition.
- Migrations are planned in the order of their file names as texts. The numbers that the
  commands write are padded, but others are accepted, and then 10 comes before 9. Out of
  version order a plan can be executed and leave a history from which the next plan is
  refused: `MigrationLimits.OutOfOrderDiverges`.
- `execute` tests `childSavepointActive` before the query-start hook and not again behind it.
  When the hook opens a savepoint on the same client, the query is sent inside that savepoint
  and is lost if it is rolled back, although docs/runtime.md says that parent executors reject
  new work: `SavepointLimits.QueryInside` and `QueryIsLost`.
  `SavepointTheorems.CommandsAreNested` gives the exact condition.
- When a transaction expires while a dispatched savepoint is awaited, COMMIT can follow an
  open savepoint: `SavepointLimits.CommitAfterExpiry`. `SavepointLimits.FinalAfterExpiry` says
  exactly when: some savepoint has not sent its RELEASE at the expiry.
- White space beyond ASCII is a gap to `normalizeQuery` but part of a word to the token
  readers. When taking it away lets a dollar quote or an escape string open, the normal form
  is read differently, and two queries can share an identifier:
  `QueryIdLimits.HiddenDollarMatters`, `HiddenEscapeMatters` and `IdentifiersCollide`.
  `QueryId.NormalizeKeepsPieces` gives the exact condition.
- `parseCompositeLiteral` drops a null at the end; its caller pads it back:
  `PgCodecs.PaddingIsNeeded` says exactly when.
- When the rename that makes a backup fails, rolling back reports a second error for the
  backup that was never made, although every target is as it was: such an error is the
  harmless case that `Publication.RollbackOne` states.

## Model

| member | source | states |
|---|---|---|
| MigrationPlan.PlanConverges | src/migration-core.ts:387-427 | from a clean history, executing a successful plan of checked files in version order ends in a clean history, and planning there succeeds with no steps, through any chain of squashes that replace squashes |
| MigrationPlan.ResumeExactly | src/migration-core.ts:330-338 | after any executed prefix of a plan, planning again succeeds if and only if no squash has some but not all of its replaced rows, and then the new plan is exactly the remaining steps |
| MigrationPlan.PreflightIsNoPartialSquash | src/migration-core.ts:281-341 | for checked files whose recorded rows match, the preflight accepts exactly the histories in which no squash is partially present; whenever it accepts, the rows match |
| MigrationPlan.PlanAtBoundary | src/migration-core.ts:387-427 | from the history that planning the first files simulates, planning everything again is planning the remaining files, if and only if no squash is partial |
| MigrationPlan.SupersededClosed | src/migration-core.ts:230-244 | what an applied or superseded squash replaces is superseded, however long the chain |
| MigrationPlan.StepKeepsSimulates | src/migration-core.ts:415-424 | the simulated history keeps, step by step, the hashes, the known rows and the superseded versions that planning relies on |
| MigrationPlan.TamperedIsHashMismatch | src/migration-core.ts:245-254 | for checked files an applied squash is tampered with exactly when its recorded hash differs from its file |
| MigrationVerdict.PlanExactly | src/migration-core.ts:281-427 | for checked files in version order, planning said without planning: there is a plan if and only if every recorded file that is not superseded has the hash that was recorded, every recorded row that a squash names is the row it names, and every squash finds all of what it replaces or none of it, now and when its turn comes; the plan has exactly one step for each file neither recorded nor superseded, in order, adopting exactly where all replaced rows are there, and leaves exactly the rows and hashes said; a failure is a partial squash, tampering another hash or name |
| MigrationVerdict.PlannedIsIntact | src/migration-core.ts:281-341 | over any files of distinct versions, checked or not: when there is a plan, every replacement is older than its squash, is the row that is recorded, and unless superseded is the current file of its version; and no applied squash file has changed or leads to one that has |
| MigrationVerdict.BrokenExactly | src/migration-core.ts:230-254 | the supersession walk finds a broken chain if and only if some way through squash files that replace one another ends at one that differs from what was recorded |
| MigrationChains.ChainReachesEffective | src/migration-core.ts:258-279 | when every squash replaces exactly the effective files before it, planning from an empty history succeeds and its steps end in exactly the rows of effectiveSquashReplacements |
| MigrationChains.CreateSquashKeepsChain | src/commands/migration-files.ts:205-221 | the file createSquashMigration writes keeps the directory such a chain, with its predecessors in place or archived |
| MigrationChains.ChainIsChecked | src/commands/migrate.ts:222-242 | every such chain passes the squash checks |
| MigrationChains.EffectiveSquash | src/migration-core.ts:274-279 | a squash of the effective files becomes the only effective file |
| MigrationChains.EffectiveAppend | src/migration-core.ts:274-279 | a file that replaces no existing file is added to the effective files |
| MigrationRun.CheckMigrationFiles | src/commands/migrate.ts:142-250 | the version and squash checks report no issue if and only if versions are distinct and every replacement is older than its squash and matches its current file |
| MigrationRun.IndexMigrationFiles | src/commands/migrate.ts:146-209 | the loop keeps the first file of every version and reports an issue if and only if a version occurs twice |
| MigrationRun.CheckReplacements | src/commands/migrate.ts:222-242 | with distinct versions, a squash raises no issue if and only if each of its replacements is older and matches |
| MigrationRun.SquashCoveredVersions | src/migration-core.ts:258-272 | the loop returns exactly the versions that some squash replaces, and fails exactly when some replacement is not older |
| MigrationRun.EffectiveSquashReplacements | src/migration-core.ts:274-279 | returns exactly the files that no squash covers, in order, and fails exactly when some replacement is not older |
| MigrationRun.SupersessionWalk.VisitReplacements | src/migration-core.ts:230-244 | the recursive walk with its shared visited set adds only covered versions; when it returns true everything that the squash covers has been collected, when it returns false a file of the chain differs from what was recorded |
| MigrationRun.VisitRoot | src/migration-core.ts:245-254 | one applied squash as a root of the walk: either it and all below it are intact and collected, or it was tampered with |
| MigrationRun.AppliedSquashSupersededVersions | src/migration-core.ts:222-256 | returns null only for tampered squashes; with distinct versions it returns a set exactly when none is, and the set is the transitive supersession |
| MigrationRun.PreflightSquashMigrations | src/migration-core.ts:281-341 | the nested loops give the verdict of the preflight specification |
| MigrationRun.PlanSquashAdoption | src/migration-core.ts:343-385 | the loop gives the adoption decision: none, all rows present, partial, or tampered |
| MigrationRun.PlanSteps | src/migration-core.ts:398-426 | the planning loop returns the specified plan, and the history it simulates is the one that executing its steps produces |
| MigrationRun.BuildMigrationPlan | src/migration-core.ts:387-427 | with distinct versions the plan is the specified one; its simulated history is always what executing the steps gives |
| MigrationRun.ExecuteSquashAdoption | src/migration-core.ts:445-492 | wherever it stops, the table is as before or holds the whole adoption, and no migration SQL was run; done means it holds it, and without a failing command it is done |
| MigrationRun.ExecuteApply | src/migration-core.ts:617-654 | wherever it stops, the database is as before, or the migration's SQL was run in the transaction that recorded its row; done means both and a clean session, and without a failing command it is done |
| MigrationRun.ExecuteStep | src/migration-core.ts:604-654 | one turn of the loop: the SQL that is committed is that of an ordinary migration, with the state of the session it met, and none for an adoption |
| MigrationRun.ApplyPending | src/migration-core.ts:596-656 | wherever it stops, the committed rows and the committed migration SQL are those of one prefix of the plan, in order: the counted steps, or one more whose commit answer was lost; adoptions run no SQL, every SQL but the first meets a clean session; success means the whole plan, and with distinct versions and no failing command it succeeds |
| MigrationLimits.ResumeCanFail | src/migration-core.ts:330-338 | for files a, b and a squash of both, the plan from an empty history succeeds, but after its first step the next plan is refused |
| MigrationLimits.DirtyHistoryPlans | src/migration-core.ts:387-427 | a history that kept the rows its squash replaced can still plan the adoption of another squash of one of them |
| MigrationLimits.DirtyHistoryDiverges | src/migration-core.ts:330-338 | after that adoption the next plan is refused: convergence needs a clean history |
| MigrationLimits.OutOfOrderIsNotClean | src/migration-core.ts:398-426 | for files out of version order, executing a successful plan from an empty history can end in rows that are not clean |
| MigrationLimits.OutOfOrderDiverges | src/migration-core.ts:38-65 | convergence needs version order, which reading the directory in the order of file names does not give (10 sorts before 9): a squash sorted before one of the two files it replaces, the other archived, is planned and executed, and then planning is refused |
| PoolSafety.GenerationSafety | src/postgres-runtime.ts:529-549 | in every reachable state at most one generation is healthy, it is current, current has the largest id, recycleCount is current minus one, and a client that is healthy or recycling has a healthy current generation |
| PoolSafety.OperationSafety | src/postgres-runtime.ts:604-667 | in every run no operation is dispatched twice, an interruption is written once, one recorded as not_sent has not been and is never dispatched, and the active operations of lost generations are interrupted or have an expired transaction |
| PoolSafety.ShutdownSafety | src/postgres-runtime.ts:516-527 | once shutdown has started, even inside a hook, no operation is admitted and no generation created, the state moves only from closing to closed, and at closed every active operation is interrupted or belongs to an expired transaction |
| PoolSafety.FailedRecovers | src/postgres-runtime.ts:939-990 | failed is not final: timing out a query on a healthy current generation replaces it and the client becomes healthy again |
| PoolSafety.PoisonKeeps | src/postgres-runtime.ts:939-990 | poisoning keeps the invariant whatever its hooks do re-entrantly, loses the generation for good and leaves the client settled |
| PoolSafety.RunHookKeeps | src/postgres-runtime.ts:1147-1183 | any finite sequence of calls inside a hook keeps the invariant and, while no generation is healthy, admits nothing: close, abort and start calls, the bootstrap and the deadline checks that a started call goes on to, and the queries that expire a transaction |
| PoolSafety.ExpireKeeps | src/postgres-runtime.ts:380-396 | the deadline of a transaction, also when a call in a hook finds that it has passed, keeps the invariant |
| PoolSafety.FailTransactionKeeps | src/postgres-runtime.ts:692-720 | a query that expires its transaction behind its own notification keeps the invariant |
| PoolSafety.BeginKeeps | src/postgres-runtime.ts:863-878 | the bootstrap of an operation, also of one started in a hook, keeps the invariant |
| PoolSafety.CloseKeeps | src/postgres-runtime.ts:516-527 | close, also inside a hook, keeps the invariant and starts shutdown |
| PoolSafety.StartKeeps | src/postgres-runtime.ts:543-592 | admission keeps the invariant |
| PoolSafety.AbortKeeps | src/postgres-runtime.ts:910-923 | aborting an operation, with the poisoning it may cause, keeps the invariant |
| PoolSafety.TimeoutKeeps | src/postgres-runtime.ts:900-908 | timing out an operation, with its poisoning, keeps the invariant |
| PoolSafety.DispatchKeeps | src/postgres-runtime.ts:626-629 | dispatching an operation that passed its checks keeps every operation dispatched at most once and never after not_sent |
| PoolSafety.RetiredKeeps | src/postgres-runtime.ts:977-989 | the end of a retirement keeps the invariant, and only the newest recovery can announce healthy |
| PoolSafety.ForceKeeps | src/postgres-runtime.ts:1187-1195 | the forced phase of shutdown keeps the invariant |
| PoolSafety.StepKeeps | src/postgres-runtime.ts:939-990 | every turn, with any re-entrant calls, keeps the invariant and leaves the client settled |
| PoolSafety.RunKeeps | src/postgres-runtime.ts:939-990 | every run does; what was decided about an operation stays decided |
| PoolSafety.ReachableInv | src/postgres-runtime.ts:529-549 | the invariant holds in every reachable state |
| PoolProgress.DispatchesExactly | src/postgres-runtime.ts:604-667 | in every reachable state a turn dispatches exactly the operation whose turn it is, once, when that is working, neither interrupted nor expired, in time and not yet dispatched; no other turn dispatches anything |
| PoolProgress.StartedIsDispatched | src/postgres-runtime.ts:543-667 | from every reachable state that admits calls, a query or transaction that is started goes on to be dispatched, once |
| PoolProgress.OperationsAreAccountedFor | src/postgres-runtime.ts:604-667 | in every reachable state an operation whose work has stopped was settled by the driver, interrupted or expired, and an interruption says unknown exactly when the operation has been dispatched, apart from the deadline of a transaction, which always says unknown |
| PoolProgress.AdmitsExactly | src/postgres-runtime.ts:543-549 | a reachable client admits calls if and only if it is healthy or recycling |
| PoolProgress.StartAdmits | src/postgres-runtime.ts:551-592 | an admitted call is one more operation of the current generation, whatever its hooks do; a refused one changes nothing |
| PoolProgress.WorkIsOver | src/postgres-runtime.ts:594-602 | the driver settles an operation, and one whose work has stopped leaves the active set behind its hooks |
| PoolProgress.AbortInterrupts | src/postgres-runtime.ts:910-923 | an abort interrupts its operation once, with the outcome of the moment, and costs the generation if and only if a query or readiness check has begun its bootstrap and has not been dispatched |
| PoolProgress.DeadlineInterrupts | src/postgres-runtime.ts:900-908 | a deadline interrupts its query and costs the generation, whether the timer fires or a check finds it; nothing is dispatched |
| PoolProgress.TransactionEnds | src/postgres-runtime.ts:880-890 | the deadline of a transaction and a failing query expire it without costing the generation |
| PoolProgress.GraceCostsGeneration | src/postgres-runtime.ts:925-937 | a driver that stalls costs the generation if and only if the query was dispatched and interrupted, or the transaction has ended, and the driver has not settled it |
| PoolProgress.PoisonStops | src/postgres-runtime.ts:952-962 | poisoning with quiet hooks interrupts exactly the active operations of the generation other than the one that caused it |
| PoolProgress.QuietPoison | src/postgres-runtime.ts:963-990 | poisoning with quiet hooks ends in a new healthy generation and a recycling client, or in a failed one that admits nothing |
| PoolProgress.RetirementAnnounces | src/postgres-runtime.ts:977-989 | the end of a retirement makes the client healthy if and only if it recycles and this is its newest recovery; a failure to end makes it failed unless it is closing |
| PoolProgress.ShutdownEnds | src/postgres-runtime.ts:1185-1204 | from every reachable state shutdown can be brought to its end, where the client is closed, nothing is live and every operation has been stopped |
| PoolProgress.CloseInterruptsNone | src/postgres-runtime.ts:516-527 | close by itself interrupts no operation |
| PoolRuntime.ManagedPool.RunHook | src/postgres-runtime.ts:1147-1163 | a hook call has exactly the effect of the calls it makes |
| PoolRuntime.ManagedPool.Transition | src/postgres-runtime.ts:1172-1183 | a state change and the hook it runs |
| PoolRuntime.ManagedPool.Close | src/postgres-runtime.ts:516-527 | the first close starts shutdown and announces closing; later ones do nothing |
| PoolRuntime.ManagedPool.StartOperation | src/postgres-runtime.ts:543-592 | admits an operation if and only if shutdown has not started, the client has not failed and the current generation is healthy |
| PoolRuntime.ManagedPool.AbortOperation | src/postgres-runtime.ts:910-923 | interrupts once with the outcome at that moment, and poisons when a bootstrap was under way |
| PoolRuntime.ManagedPool.BeginBootstrap | src/postgres-runtime.ts:604-611 | an operation that was interrupted or has expired goes no further; any other begins its bootstrap |
| PoolRuntime.ManagedPool.FailTransaction | src/postgres-runtime.ts:692-716 | the notification comes first, then the transaction is expired |
| PoolRuntime.ManagedPool.TimeoutOperation | src/postgres-runtime.ts:900-908 | interrupts once, runs the hook and poisons the generation |
| PoolRuntime.ManagedPool.ExpireTransaction | src/postgres-runtime.ts:880-890 | the deadline of a transaction expires it |
| PoolRuntime.ManagedPool.InterruptOperations | src/postgres-runtime.ts:952-962 | the loop interrupts exactly the active operations that are not the trigger and not yet interrupted, and expires their transactions |
| PoolRuntime.ManagedPool.PoisonGeneration | src/postgres-runtime.ts:939-962 | marks, announces and stops the operations, returning early at each repeated shutdown check |
| PoolRuntime.ManagedPool.RecycleGeneration | src/postgres-runtime.ts:963-965 | announces recycling and opens a new recovery epoch unless shutdown has started |
| PoolRuntime.ManagedPool.ReplaceGeneration | src/postgres-runtime.ts:966-990 | creates the replacement and retires the old generation, or fails |
| PoolRuntime.ManagedPool.GenerationRetired | src/postgres-runtime.ts:977-989 | the two callbacks of a retirement |
| PoolRuntime.ManagedPool.DispatchOperation | src/postgres-runtime.ts:604-667 | the specified turn: an operation that was interrupted or has expired goes no further, a passed deadline ends it, any other is sent |
| PoolRuntime.ManagedPool.FinishOperation | src/postgres-runtime.ts:594-602 | an operation ends |
| PoolRuntime.ManagedPool.ForceShutdown | src/postgres-runtime.ts:1187-1195 | every operation still active is interrupted |
| PoolRuntime.ManagedPool.FinishShutdown | src/postgres-runtime.ts:1196-1204 | the generations are dropped and the client is closed |
| PoolRuntime.ManagedPool.Turn | src/postgres-runtime.ts:207-1229 | every method is the corresponding step of the state machine |
| PoolRuntime.RunClient | src/postgres-runtime.ts:207-1229 | any sequence of turns of a new client ends in a reachable state, to which the safety results apply |
| JsonRoundTrip.ExtendedJsonRoundTrip | src/json-value.ts:136-169 | every value the snapshot and the encoder accept is parsed back to the same raw tree and decoded to the same document, up to key order and materializeNumber, nested objects with a $sqlx key included |
| JsonRoundTrip.EncodingIsUnambiguous | src/json-encoding.ts:181-198 | documents with the same text are the same document: no user object is mistaken for a tag |
| JsonLanguage.ParsesExactly | src/json-value.ts:482-624 | the parser accepts exactly the texts of RFC 8259 (a grammar of trees with any white space, spelled out) that are within the limits of size, keys, strings, numbers, nodes and depth, and gives each exactly its meaning |
| JsonLanguage.ParseSyntax | src/json-value.ts:490-550 | any written value, with any white space between its tokens, before any text is read as its meaning, charging exactly its nodes and number data, up to what follows it |
| JsonLanguage.ValueIsSyntax | src/json-value.ts:490-550 | conversely, whatever the parser reads a value from is a written value |
| JsonGrammar.ScanGlyphs | src/json-value.ts:552-581 | a string written in any mixture of plain units and escapes of both kinds is read as the units written |
| JsonGrammar.ScannedIsGlyphs | src/json-value.ts:552-581 | conversely, a string that is read was written so |
| JsonGrammar.SkipBlank | src/json-value.ts:620-624 | white space is any sequence of the units 0x20, 0x09, 0x0A and 0x0D, and all of it is skipped |
| JsonGrammar.NumeralIsToken | src/json-number.ts:42-48 | what the grammar of numbers spells out is a token |
| JsonGrammar.TokenIsNumeral | src/json-number.ts:42-48 | and every token is one |
| JsonTags.DecodesExactly | src/json-value.ts:353-436 | a raw tree decodes to a value if and only if it stands for it: exactly the objects with a $sqlx key that hold a control of exactly type and v, v being 1, and a payload of the shape of the type (bigint digits, an object, a text that the Temporal factory of that name reads) are tags, keys in either order, and everything else is itself |
| JsonRoundTrip.NumbersComeBack | src/json-value.ts:463-473 | a document of JavaScript numbers, and of exact numbers that no JavaScript number stands for, is read back with its keys in order and nothing else changed |
| JsonRoundTrip.NumberRoundTrip | src/json-value.ts:463-473 | a JavaScript number that the snapshot accepts comes back as itself, provided Number() does not tell a token from its canonical form |
| JsonRoundTrip.ExactRoundTrip | src/json-value.ts:463-473 | an exact number comes back as an exact number if and only if Number() of it is infinite, an integer outside the safe range, or zero written otherwise |
| JsonRoundTrip.SettleIsSame | src/json-value.ts:463-473 | the decoded value is the original with its keys reordered and its numbers materialised, and nothing else changed |
| JsonRoundTrip.TextIsSound | src/json-value.ts:490-629 | whatever text is parsed, the tree has accepted numbers, strings that fit and distinct keys, stays within every limit, and the counters hold exactly its nodes and number data |
| JsonRoundTrip.PrintedFormIsStable | src/json-value.ts:482-503 | printing what was parsed gives a text that parses to the same tree |
| JsonParse.StringRoundTrip | src/json-value.ts:552-581 | scanning inverts JSON.stringify of every string of code units, lone surrogates included (section 7 of RFC 8259) |
| JsonParse.NumberEnds | src/json-value.ts:585-603 | the longest number token is found whatever may follow it in a document (section 6 of RFC 8259) |
| JsonParse.ParsePrint | src/json-value.ts:490-503 | parsing the printed text of any tree within the limits, from any state, gives the tree, leaves what follows and charges exactly its nodes and number data |
| JsonParse.DocumentRoundTrip | src/json-value.ts:482-488 | printing and parsing a whole document is the identity on raw trees |
| JsonEncode.EncodeIsPrint | src/json-encoding.ts:47-77 | the text of a value is the printed raw tree that stands for it, tags and escaped objects included |
| JsonEncode.CountsAgree | src/json-encoding.ts:166-211 | the encoder's node counter and greatest depth are the parser's on the text |
| JsonEncode.ValuesAgree | src/json-value.ts:196-260 | the snapshot's total of canonical number data is the parser's, and every string, key and number token is one the parser accepts |
| JsonEncode.EncodedDocumentsParse | src/json-value.ts:162-169 | every encodable value is parsed back without hitting any limit |
| JsonEncode.SortMeasures | src/json-encoding.ts:136-143 | sorting the keys changes no count |
| JsonDecode.DecodeRoundTrip | src/json-value.ts:365-436 | decoding the raw tree of a value gives it back settled: objects decode to objects whatever their keys, tags to what was tagged |
| JsonDecode.BigintRoundTrip | src/json-value.ts:398-404 | the digits of every bigint within the limit decode to it |
| JsonDecode.DecodeTag | src/json-value.ts:384-436 | a tag is decoded by its type, and an object tag only around an object |
| JsonDecode.TagKeySurvives | src/json-encoding.ts:181-192 | an object has a $sqlx key before sorting and encoding exactly when it has one after |
| JsonNumber.CanonicalShape | src/json-number.ts:14-31 | the canonical form is an accepted token without exponent, of exactly the announced length and within the token limit, and is its own canonical form |
| JsonNumber.CanonicalValue | src/json-number.ts:18-31 | it writes exactly the same rational number, with the same fraction digits unless it is zero |
| JsonNumber.CanonicalDecides | src/json-number.ts:18-31 | two tokens have the same canonical form if and only if they write the same number with the same number of fraction digits, or both write zero |
| JsonNumeral.AcceptedExactly | src/json-number.ts:42-106 | a token is accepted if and only if it is a numeral of at most 147471 characters whose exponent is at most 147455 either way and which is zero, or is less than ten to the 131072 and needs at most 16383 digits behind the point |
| JsonNumeral.NumeralExactly | src/json-number.ts:42-106 | and its value is then the number written: its digits times ten to its signed exponent less the digits behind the point |
| JsonNumber.PartsAreDigits | src/json-number.ts:42-56 | a token splits into integer, fraction and exponent digits |
| JsonNumber.ScaleInjective | src/json-number.ts:42-89 | numbers with the same scale are the same number exactly when their digits agree |
| JsonSort.SortOrdered | src/json-value.ts:692-694 | sorting by key gives an ordered arrangement with distinct keys |
| JsonSort.SortedMember | src/json-value.ts:692-694 | of exactly the same members |
| JsonBytes.Utf8Append | src/json-limits.ts:22-54 | UTF-8 lengths add up wherever the cut is not inside a surrogate pair |
| JsonBytes.QuoteStep | src/json-limits.ts:22-54 | the quoted form is counted unit by unit: short escapes, control escapes, pairs and lone surrogates |
| JsonBytes.TagBytes | src/json-encoding.ts:166-179 | the bytes of a tag around its payload |
| JsonBytes.SortedMembersText | src/json-encoding.ts:145-164 | the bytes of the members in key order are those of the text the second pass writes |
| JsonBytes.ExactAscii | src/json-encoding.ts:93-94 | the bytes of a number token are its characters |
| JsonBytesSent.SentTextIsRead | src/json-limits.ts:22-54 | the text of a document, lone surrogates in its strings included, survives UTF-8 (section 3 of RFC 3629): no byte of it is a replacement, reading the bytes gives the text, and their number is the number the limits count |
| JsonBytesSent.Utf8LenIsBytes | src/json-limits.ts:22-54 | the counted length is the number of bytes written, for every text |
| JsonMeasure.JsonEncodingBudget.ReserveString | src/json-limits.ts:22-54 | reserves exactly the UTF-8 length of the quoted string, cached or counted, and fails exactly when it does not fit |
| JsonMeasure.ObjectLoad | src/json-encoding.ts:145-164 | what the two passes charge for an object is what its text and its counters need, escape included |
| JsonMeasure.SortLoads | src/json-encoding.ts:136-143 | the order of the members changes nothing of the load |
| JsonEncoder.MeasureState.MeasureValue | src/json-encoding.ts:79-116 | the measuring pass charges exactly the nodes, the depth and the UTF-8 bytes of the text the second pass writes, or fails naming a limit that the value exceeds |
| JsonEncoder.MeasureState.MeasureObject | src/json-encoding.ts:145-164 | the same for an object and its escape |
| JsonEncoder.MeasureState.MeasureTaggedString | src/json-encoding.ts:166-179 | the same for a tagged string |
| JsonEncoder.MeasureState.MeasureBody | src/json-encoding.ts:151-162 | the same for the members in key order |
| JsonEncoder.MeasureState.MeasureItems | src/json-encoding.ts:104-111 | the same for the items of an array |
| JsonEncoder.EncodeState.WriteValue | src/json-encoding.ts:47-77 | writes the encoding and counts its nodes, or fails naming a limit that is exceeded |
| JsonEncoder.EncodeState.WriteObject | src/json-encoding.ts:181-192 | the same for an object |
| JsonEncoder.EncodeState.WriteMembers | src/json-encoding.ts:181-192 | the same for the members in key order |
| JsonEncoder.EncodeState.WriteItems | src/json-encoding.ts:65-67 | the same for the items of an array |
| JsonEncoder.EncodeState.WriteTag | src/json-encoding.ts:194-198 | the same for a tag around a payload |
| JsonEncoder.SerializeExtendedJson | src/json-encoding.ts:28-45 | succeeds if and only if the value is within every limit, the bytes of its text included; the text is the encoding; an error names a limit that is exceeded |
| JsonParser.ExactJsonParser.Parse | src/json-value.ts:482-488 | the parser with its index computes the specified result |
| JsonParser.ExactJsonParser.ParseValue | src/json-value.ts:490-503 | counts the node, checks both limits and reads a value by its first character, leaving the text and the counters that the specification does |
| JsonParser.ExactJsonParser.ParseObject | src/json-value.ts:505-531 | reads keys, colons, values and separators up to the closing brace, and fails where the specification does, for a key that comes again too |
| JsonParser.ExactJsonParser.ParseArray | src/json-value.ts:533-550 | reads values and separators up to the closing bracket, and fails where the specification does |
| JsonParser.ExactJsonParser.ParseString | src/json-value.ts:552-581 | finds the closing quote, decodes the token and checks its UTF-8 length: the string that unescaping unit by unit gives |
| JsonParser.ExactJsonParser.ParseNumber | src/json-value.ts:583-610 | reads the longest token, checks its length and its digits and charges its canonical length |
| JsonParser.ExactJsonParser.ParseKeyword | src/json-value.ts:612-618 | reads exactly true, false or null |
| JsonParser.ExactJsonParser.ParseMember | src/json-value.ts:515-523 | one key, a colon and a value |
| JsonParser.ExactJsonParser.SkipEscape | src/json-value.ts:570-578 | an escape is skipped exactly when it is well formed |
| JsonParser.ExactJsonParser.SkipNumber | src/json-value.ts:585-603 | the longest token of the grammar, or none |
| JsonParser.ExactJsonParser.SkipWhitespace | src/json-value.ts:620-624 | skips exactly the JSON white space |
| JsonParser.ParseText | src/json-value.ts:162-165 | the size check and the parser give the specified result for every text |
| JsonParser.StringBodyIsLocal | src/json-value.ts:552-581 | scanning a string looks at nothing behind its closing quote |
| JsonSnapshot.SnapshotState.Snapshot | src/json-value.ts:196-260 | charges exactly the nodes, the depth and the number data of the value, or fails for a limit it exceeds or a part that is not accepted |
| JsonSnapshot.SnapshotState.SnapshotArray | src/json-value.ts:262-278 | the same for an array |
| JsonSnapshot.SnapshotState.SnapshotObject | src/json-value.ts:280-298 | the same for an object |
| JsonSnapshot.SnapshotBelowEncoder | src/json-value.ts:631-639 | the encoder's counts are never below the snapshot's |
| JsonSnapshot.CreateSqlxJson | src/json-value.ts:136-147 | succeeds if and only if the value is encodable, and the stored text is the encoding |
| SavepointTheorems.CommandsAreNested | src/postgres-transaction-runtime.ts:124-134 | the commands of a run form a nested word (SAVEPOINT names are new, only the innermost is rolled back to or released, queries come only from the innermost open scope) if and only if the run is calm: no query is sent by a client on which its own query-start hook has opened a savepoint |
| SavepointTheorems.QuietRunsAreCalm | src/postgres-runtime.ts:680-685 | runs whose hooks open no savepoint are calm, whatever else the hooks call |
| SavepointTheorems.SavepointOutcome | src/postgres-transaction-runtime.ts:83-92 | in a calm run a released savepoint keeps exactly the effects of its callback if the callback returned and none of its own queries failed; otherwise the database is what it was when its SAVEPOINT was answered |
| SavepointTheorems.MarkIsSnapshot | src/postgres-transaction-runtime.ts:71-92 | in every run that has not expired, what a standing savepoint recorded is the database at the turn in which its SAVEPOINT was answered |
| SavepointTheorems.CommitOutcome | src/postgres-runtime.ts:651-660 | in a calm run, until the transaction expires, COMMIT finds every savepoint closed and commits exactly the applied queries and, in place, those of the kept savepoints; a failed transaction commits nothing |
| SavepointProgress.FinalCommand | src/postgres-runtime.ts:651-660 | in every run at most one of COMMIT and ROLLBACK is sent, behind the end of the callback of the transaction: COMMIT if and only if the callback returned, ROLLBACK if and only if it threw |
| SavepointProgress.SettlingEnds | src/postgres-runtime.ts:651-660 | once nothing is left in flight, settling the transaction sends exactly that command |
| SavepointProgress.ThrownRollsBack | src/postgres-runtime.ts:651-660 | in a calm run that has not expired, a transaction whose callback threw does not end committed, and ends with an empty database |
| SavepointProgress.ReturnedCommits | src/postgres-runtime.ts:651-660 | the answer to the final command commits the effects of the history if the callback returned and the server has not failed the transaction, and nothing otherwise |
| SavepointProgress.CallsAreSent | src/postgres-transaction-runtime.ts:215-280 | in a calm run that has not expired, a query or savepoint call is sent if and only if its scope is running, has no rejected query and no open child |
| SavepointProgress.ScopeEnds | src/postgres-transaction-runtime.ts:83-92 | a savepoint with nothing in flight sends RELEASE if its callback returned and none of its queries was rejected, ROLLBACK TO otherwise |
| SavepointProgress.AnswersGoOn | src/postgres-runtime.ts:833-852 | an accepted SAVEPOINT starts the callback, ROLLBACK TO is followed by RELEASE, and a lost connection expires the transaction |
| SavepointProgress.ExpiredEnds | src/postgres-transaction-runtime.ts:281-288 | once a calm run has expired, the client can bring the transaction to its end without any answer: callbacks end, queries and control commands reject, every savepoint is left, and the final command is sent |
| SavepointProgress.LeftFreesParent | src/postgres-transaction-runtime.ts:281-288 | a savepoint whose control command rejects is broken, sends nothing, and frees its parent |
| SavepointTheorems.ControlsAreAccepted | src/postgres-transaction-runtime.ts:86-92 | in a calm run ROLLBACK TO and RELEASE are never refused by the server |
| SavepointTheorems.SavepointRecordsDatabase | src/postgres-transaction-runtime.ts:71-72 | an accepted SAVEPOINT records the database as it is; it is refused exactly when a query of the enclosing scope has failed the transaction |
| SavepointTheorems.MarksPersist | src/postgres-transaction-runtime.ts:63-93 | no step changes what a standing savepoint recorded |
| SavepointTheorems.ExpiredIsSilent | src/postgres-runtime.ts:885-890 | once the transaction has expired its scopes send nothing more |
| SavepointTheorems.RunRecords | src/postgres-transaction-runtime.ts:83-92 | in every calm run each closed child is in the history of its parent, with its own history and the right outcome |
| SavepointLimits.FinalAfterExpiry | src/postgres-runtime.ts:651-660 | after an expiry, whatever its cause, at most one command more is sent, the final COMMIT or ROLLBACK, and it finds every savepoint closed if and only if each was closed or had sent its RELEASE at the end of the turn of the expiry |
| SavepointLimits.CommitAfterExpiry | src/postgres-transaction-runtime.ts:168-172 | both cases occur: a run in which COMMIT follows an open savepoint |
| SavepointLimits.QueryInside | src/postgres-transaction-runtime.ts:124-134 | a query-start hook that opens a savepoint on the transaction: the query of the transaction is sent inside it, and the word is not nested |
| SavepointLimits.QueryIsLost | src/postgres-transaction-runtime.ts:83-92 | a run of that kind in which the savepoint is rolled back, COMMIT succeeds, and a query that resolved is not in what is committed |
| SavepointHooks.ExecuteKeeps | src/postgres-transaction-runtime.ts:215-246 | a calm query, with everything its hook calls, keeps the invariant of clients, wire and server |
| SavepointHooks.ExecuteBreaks | src/postgres-transaction-runtime.ts:215-246 | a query that is not calm, or whose hook calls one that is not, ends the nesting of the word |
| SavepointHooks.ExecuteCalls | src/postgres-runtime.ts:680-685 | whatever a hook calls, no scope ends, fails or records anything, only active scopes change and new ones are opening |
| SavepointSafety.OpenKeeps | src/postgres-transaction-runtime.ts:262-280 | so does opening a savepoint |
| SavepointSafety.CallbackEndsKeeps | src/postgres-transaction-runtime.ts:174-176 | so does the end of a callback |
| SavepointSafety.SettleKeeps | src/postgres-transaction-runtime.ts:83-92 | so does what follows settle: rolling back or releasing, and ending the transaction |
| SavepointSafety.RejectKeeps | src/postgres-transaction-runtime.ts:236-244 | so does a rejected query |
| SavepointSafety.UnwindKeeps | src/postgres-transaction-runtime.ts:281-288 | so does a savepoint whose control command is refused by the expiry |
| SavepointSafety.LeaveKeepsStructure | src/postgres-transaction-runtime.ts:281-288 | leaving a savepoint frees its parent and keeps the chain of open scopes |
| SavepointAnswers.AnswerQueryKeeps | src/postgres-runtime.ts:770-831 | an answered query moves the database as the client believes |
| SavepointAnswers.AnswerSavepointKeeps | src/postgres-runtime.ts:833-852 | so does an answered SAVEPOINT |
| SavepointAnswers.AnswerRollbackToKeeps | src/postgres-runtime.ts:833-852 | so does an answered ROLLBACK TO: the effects of the scope are gone |
| SavepointAnswers.AnswerReleaseKeeps | src/postgres-runtime.ts:833-852 | so does an answered RELEASE: the effects of the scope become those of its parent |
| SavepointAnswers.AnswerKeeps | src/postgres-runtime.ts:833-852 | the answer to the oldest command keeps the invariant |
| SavepointAnswers.StepKeeps | src/postgres-transaction-runtime.ts:63-292 | every calm step keeps it |
| SavepointAnswers.RunKeeps | src/postgres-transaction-runtime.ts:63-292 | every calm run does |
| SavepointRuntime.TransactionClients.Execute | src/postgres-transaction-runtime.ts:215-246 | tests the flags of its client, runs the query-start hook, which may call the clients again, and sends the query if only the transaction has not expired |
| SavepointRuntime.TransactionClients.RunHook | src/postgres-runtime.ts:680-685 | the calls of a hook run in order on the same fields |
| SavepointRuntime.TransactionClients.DispatchQuery | src/postgres-runtime.ts:743-768 | after the hook the query is refused by its encoders or an expiry, or sent; a savepoint client then has it in flight |
| SavepointRuntime.TransactionClients.OpenSavepoint | src/postgres-transaction-runtime.ts:262-280 | occupies the client, takes the next name and sends SAVEPOINT |
| SavepointRuntime.TransactionClients.Finish | src/postgres-transaction-runtime.ts:83-84 | the callback has ended and its client is inactive |
| SavepointRuntime.TransactionClients.Leave | src/postgres-transaction-runtime.ts:281-288 | the finally block: the client of the parent is free again |
| SavepointRuntime.TransactionClients.Settle | src/postgres-transaction-runtime.ts:84-92 | once nothing is in flight, rolls back, releases, commits or gives up |
| SavepointRuntime.TransactionClients.RejectQuery | src/postgres-transaction-runtime.ts:236-244 | a rejected query leaves the in-flight set and aborts its savepoint unless the transaction has expired |
| SavepointRuntime.TransactionClients.Unwind | src/postgres-transaction-runtime.ts:281-288 | a refused control command ends its savepoint |
| SavepointRuntime.TransactionClients.AnswerQuery | src/postgres-runtime.ts:770-831 | the answer to a query |
| SavepointRuntime.TransactionClients.AnswerSavepoint | src/postgres-transaction-runtime.ts:71-78 | the answer to SAVEPOINT starts the callback or ends the call |
| SavepointRuntime.TransactionClients.AnswerRollbackTo | src/postgres-transaction-runtime.ts:86-88 | the answer to ROLLBACK TO is followed by RELEASE |
| SavepointRuntime.TransactionClients.AnswerRelease | src/postgres-transaction-runtime.ts:88-92 | the answer to RELEASE closes the savepoint with its outcome |
| SavepointRuntime.TransactionClients.AnswerEnd | src/postgres-runtime.ts:651-660 | the answer to COMMIT or ROLLBACK |
| SavepointRuntime.TransactionClients.Answer | src/postgres-runtime.ts:833-852 | the connection answers its oldest command |
| SavepointRuntime.TransactionClients.Take | src/postgres-transaction-runtime.ts:63-292 | every method is the corresponding step of the state machine |
| SavepointRuntime.RunTurns | src/postgres-transaction-runtime.ts:63-93 | any sequence of turns, with any hooks, sends a nested word if and only if it is calm |
| SqlRewrite.RewritePreservesMeaning | src/sql-params.ts:114-129 | binding $k in the rewritten text to the k-th parameter is binding every $name of the query to its value |
| SqlRewrite.RewriteKeepsTokens | src/sql-params.ts:42-105 | reading the rewritten text gives the tokens of the query with names numbered by first appearance; literals, quoted identifiers, comments and dollar bodies come back as they were |
| SqlVerdict.RewriteExactly | src/sql-params.ts:88-108 | a query is refused if and only if it names __proto__ or has placeholders of both kinds, and as reserved if and only if it names __proto__ |
| SqlVerdict.NamesInOrder | src/sql-params.ts:92-97 | the names are exactly the names used, each once, in the order of their first use |
| SqlVerdict.CountExactly | src/sql-params.ts:77-81 | the count of an accepted query is the greatest number of its positional placeholders, 0 without any |
| SqlVerdict.MapExactly | src/sql-params.ts:37-40 | each entry of the position map: the characters written for a token map to the characters from its start on, and the place behind the output to the place behind the query |
| SqlGrammar.ReadsExactly | src/sql-params.ts:42-105 | the token read at any place, behind and before any text, is the one that a grammar spelled out in characters has there (comments, literals with and without escapes, quoted identifiers, dollar-quoted bodies, placeholders, single characters), and no other |
| SqlGrammar.LexesExactly | src/sql-params.ts:42-105 | the tokens of a text are the one division of it into such tokens |
| SqlGrammar.NamedExactly | src/sql-params.ts:84-99 | a placeholder has a name if and only if behind the dollar sign, itself not behind a word, stands that maximal run of A-Z, a-z, 0-9 and underscore, which does not start with a digit and does not open a dollar quote |
| SqlGrammar.PositionalExactly | src/sql-params.ts:77-83 | a positional placeholder is the maximal run of digits that does not start with 0 |
| SqlGrammar.SpecialExactly | src/sql-lex.ts:1-61 | the comments, literals, quoted identifiers and dollar-quoted bodies, each if and only if the text has its form |
| SqlRewrite.RewriteWithoutNames | src/sql-params.ts:118-118 | a query without names is left alone, and so are its arguments |
| SqlRewrite.PositionalCountIsGreatest | src/sql-params.ts:77-80 | positionalCount is the greatest number of a positional placeholder, 0 when there is none |
| SqlRewrite.RewriteIsIdempotent | src/sql-params.ts:28-112 | rewriting the output again changes nothing and reports no names |
| SqlRewrite.BindAccepts | src/sql-params.ts:114-129 | with named parameters, binding succeeds if and only if there is one object argument with exactly the names of the query |
| SqlRewrite.PositionMapPoints | src/sql-params.ts:37-40 | outside rewritten placeholders the position map points at the same character of the query, and it has one entry more than the output |
| SqlRewrite.OriginalPositionPoints | src/sql-params.ts:131-135 | an error position outside rewritten placeholders is mapped to the same character of the query |
| SqlRewrite.ReadToken | src/sql-params.ts:43-104 | the branches of the loop find the token at a position |
| SqlRewrite.RewriteNamedParameters | src/sql-params.ts:28-112 | the loop over i, out, names, indexes and positionMap computes the specified result and errors |
| SqlParams.LexOutput | src/sql-params.ts:42-105 | the output of any text is read back as its tokens, numbered |
| SqlParams.JoinLex | src/sql-params.ts:42-105 | the tokens of a text make up the text |
| SqlParams.OutputOpens | src/sql-params.ts:65-76 | the output opens a dollar quote exactly where the text does |
| SqlParams.DecimalDigits | src/sql-params.ts:97-97 | the number of a placeholder is written in digits without a leading zero and reads back |
| SqlLex.ReadSingleQuoted | src/sql-lex.ts:12-23 | the loop ends where the specified literal does |
| SqlLex.ReadQuotedIdentifier | src/sql-lex.ts:25-35 | the loop ends where the specified identifier does |
| SqlLex.ReadDollarQuoted | src/sql-lex.ts:37-45 | finds the end of a dollar-quoted body, or none |
| SqlLex.ReadLineComment | src/sql-lex.ts:47-50 | ends behind the line break |
| SqlLex.ReadBlockComment | src/sql-lex.ts:52-61 | ends behind the last of the nested comments |
| SqlLex.FindIsFirst | src/sql-lex.ts:42-44 | the closing tag is found at a position if and only if it occurs there and nowhere before |
| SqlLex.IndexOf | src/sql-lex.ts:42-44 | the loop finds that position from a start on |
| SqlLex.SpecialIsLocal | src/sql-lex.ts:1-61 | a token that ends before the text does is the same token before whatever may follow it |
| SqlLex.OrdinaryIsLocal | src/sql-lex.ts:1-61 | a single character stays one when no dollar quote opens behind it |
| QueryId.NormalizeKeepsPieces | src/query-id.ts:16-72 | the normal form is read as the same pieces with the same gaps if and only if the query is clear: behind white space that the readers take for part of a word no dollar quote opens without white space in its tag, and no string behind an E changes its length as an escape string |
| QueryIdGrammar.NormalizesExactly | src/query-id.ts:16-72 | every query has exactly one division into gaps (white space and comments) and kept parts, spelled out in characters, and its normal form is the kept parts with one space for each run of gaps between two of them |
| QueryId.NormalizeIsIdempotent | src/query-id.ts:16-72 | normalising twice is normalising once if and only if the normal form has no comments and only single spaces between two pieces, as that of every clear query has |
| QueryId.SameFormSamePieces | src/query-id.ts:12-14 | two clear queries have the same normal form if and only if they have the same pieces and gaps |
| QueryId.NormIsRendered | src/query-id.ts:21-29 | the normal form of every query is its pieces with one space in each gap |
| QueryId.NormalForms | src/query-id.ts:16-72 | normalising leaves a text alone if and only if it has no comments and only single spaces between two pieces |
| QueryId.GuardedIsClear | src/query-id.ts:33-37 | a query is clear when no white space beyond ASCII has a dollar sign or the E of a string right behind it, so in particular when it has none |
| QueryId.PieceAgain | src/query-id.ts:48-70 | a piece is read back from the output exactly when no dollar quote or escape string opens there |
| QueryId.OutputOpens | src/query-id.ts:60-67 | a dollar quote opens in the output exactly where one opens in the query without white space in its tag |
| QueryIdLimits.HiddenDollarMatters | src/query-id.ts:60-67 | a query that is not clear, for which normalising twice differs: a dollar quote opens |
| QueryIdLimits.HiddenEscapeMatters | src/query-id.ts:48-53 | another one: an escape string opens |
| QueryIdLimits.IdentifiersCollide | src/query-id.ts:12-14 | two queries with the same normal form, and so the same identifier, and different pieces |
| QueryId.NormalizeQuery | src/query-id.ts:16-72 | the loop over out, pendingSpace and i computes the normal form |
| PgArray.QuotedRoundTrip | src/runtime-parameters.ts:76-78 | reading a quoted element inverts quoting it |
| PgArray.ArrayRoundTrip | src/runtime-parameters.ts:152-199 | parsing gives back every nested tree of nulls, texts, quoted texts and bare numbers, with quotes always or only where needed |
| PgArrayGrammar.ParsesExactly | src/runtime-parameters.ts:152-199 | a text is read as these elements if and only if it is a literal of a grammar spelled out in characters that spells them (bounds in front, bare words, quoted texts with backslashes, nested arrays, NULL in capitals, a comma at the end); every other text is refused |
| PgArrayGrammar.TextIsBareExactly | src/runtime-parameters.ts:138-146 | a text is written without quotes if and only if it is not empty, has no backslash, quote, brace, comma or white space, and is not the word null in any capitals |
| PgArray.EncodingIsInjective | src/runtime-parameters.ts:94-148 | arrays with the same text have the same elements |
| PgArray.DimensionsAreSkipped | src/runtime-parameters.ts:156-157 | any bounds of one or more dimensions in front of an array are skipped |
| PgArrayCodec.SerializedRoundTrip | src/runtime-parameters.ts:80-199 | with a serializer and an element parser that inverts it, parsing the encoded values gives the values back, nested arrays taken apart or as whole elements |
| PgArrayCodec.PlainRoundTrip | src/runtime-parameters.ts:116-145 | without a serializer every value that is not refused comes back as the element parser makes it from its text |
| PgArrayCodec.EncodeLiteral | src/runtime-parameters.ts:94-148 | the loop over the parts gives the encoding, or the refusal of the first undefined, Date or Temporal value |
| PgArrayCodec.WriteOne | src/runtime-parameters.ts:112-145 | what is written for a value that is one element: json, bytes and numbers that are not finite always in quotes, other texts where they need them |
| PgArrayCodec.ArrayParser.ReadQuoted | src/runtime-parameters.ts:158-169 | reads up to the closing quote, a backslash keeping the next character, or fails at the end of the text |
| PgArrayCodec.ArrayParser.ReadBare | src/runtime-parameters.ts:170-175 | reads up to a comma or a closing brace; NULL is null |
| PgArrayCodec.ArrayParser.ReadElement | src/runtime-parameters.ts:185-185 | reads a nested array, a quoted or a bare element by its first character |
| PgArrayCodec.ArrayParser.ReadArray | src/runtime-parameters.ts:176-195 | reads elements and commas up to the closing brace, a comma before it allowed, and fails on anything else |
| PgArrayCodec.ParseLiteral | src/runtime-parameters.ts:152-199 | the closures that share an index give the array of every text, with the element parser applied to each element, and fail on exactly the malformed texts |
| PgCodecs.CompositeRoundTrip | src/postgres-codecs.ts:167-192 | parsing a serialised composite loses exactly a null at the end, and padding to the field count gives every field list back |
| PgServer.RecordIsRead | src/postgres-codecs.ts:167-192 | a composite as the server writes it (bare fields, quotes only where needed, quotes and backslashes doubled), padded, is read as its fields |
| PgServer.CompositeIsRead | src/postgres-codecs.ts:167-188 | fields written bare, in quotes with doubled quotes or backslashes, or not at all are read as what was written |
| PgServer.HstoreIsRead | src/postgres-codecs.ts:103-151 | an hstore with keys and values bare or in quotes and any white space around them is read as its entries, the later of two with one key |
| PgCodecs.PaddingIsNeeded | src/postgres-codecs.ts:409-416 | without the padding the fields come back if and only if there are none or the last is not null |
| PgCodecs.HstoreRoundTrip | src/postgres-codecs.ts:103-165 | parsing a serialised hstore gives every map back, in whatever order its entries are listed |
| PgCodecs.TextRoundTrip | src/postgres-codecs.ts:80-101 | reading a quoted text inverts quoting it |
| PgCodecs.ReadQuoted | src/postgres-codecs.ts:80-97 | the loop reads the quoted text, or fails |
| PgCodecs.ReadField | src/postgres-codecs.ts:175-185 | one field and where it ends |
| PgCodecs.ReadComposite | src/postgres-codecs.ts:167-188 | the loop computes the specified result for every text |
| PgCodecs.HstoreParser.Quoted | src/postgres-codecs.ts:80-97 | reads a quoted text at the shared index and moves behind it |
| PgCodecs.HstoreParser.Key | src/postgres-codecs.ts:109-123 | reads a quoted key, or the trimmed text up to an arrow |
| PgCodecs.HstoreParser.Item | src/postgres-codecs.ts:129-138 | reads a quoted value, or the trimmed text up to a comma, in which NULL is null |
| PgCodecs.HstoreParser.ReadEntry | src/postgres-codecs.ts:125-145 | reads a key, an arrow, a value and the space behind it |
| PgCodecs.ReadHstore | src/postgres-codecs.ts:103-151 | the loop computes the specified result for every text |
| Publication.PublishTargets | src/prepare-artifacts.ts:407-438 | when no operation of the file system fails, every target has its staged content and no staged file or backup is left; a failed step whose rollback restored every backup that exists leaves every target as it was, as a single failure always does; at every point in between the last target, the cache, is in place only if all are; no other path changes |
| Publication.PublishOne | src/prepare-artifacts.ts:415-424 | after one turn the target is in place, or what is recorded is enough to undo it |
| Publication.RollbackOne | src/prepare-artifacts.ts:547-558 | undoes one publication unless a removal or the renaming of an existing backup fails |
| Publication.RollbackPublications | src/prepare-artifacts.ts:547-558 | undoes the publications in reverse; the last target is not in place at any point |
| Publication.RemoveBackups | src/prepare-artifacts.ts:435-437 | removing backups, even when it fails, leaves every target in place |
| AlphaCanon.AlphaEquivalence | src/query-similarity.ts:113-134 | two normalised trees have the same canonical form if and only if some one to one renaming of the parameter identities maps one to the other |
| AlphaCanon.RenamedCanon | src/query-similarity.ts:115-126 | a renamed tree has the same canonical form, and its parameters are met in the renamed order |
| AlphaCanon.FormsGiveRenaming | src/query-similarity.ts:115-126 | equal canonical forms determine the renaming |
| AlphaCanon.CanonOrder | src/query-similarity.ts:114-126 | every identity of the tree is numbered, once |
| AlphaCanon.Canonicalizer.PositionOf | src/query-similarity.ts:118-123 | an identity seen before keeps its position, a new one gets the next |
| AlphaCanon.Canonicalizer.Canonicalize | src/query-similarity.ts:115-127 | the recursion with its shared map computes the canonical form from the identities seen before |
| AlphaCanon.Canonicalizer.CanonicalizeItems | src/query-similarity.ts:127-127 | the same for the items of an array, left to right |
| AlphaCanon.CanonicalForm | src/query-similarity.ts:113-134 | a fresh closure computes the canonical form of the whole tree |
| AstDigest.FragmentsAgree | src/query-similarity.ts:183-263 | two parse trees, of units with any parameters, have the same canonical form if and only if under some one to one renaming of the parameters they differ in locations, in key order and in the values of constants only |
| AstShapes.NamedExactly | src/query-similarity.ts:158-173 | a column reference is a parameter of an identity if and only if it has the shape of one name, spelled out, and the name is bound to that identity |
| AstShapes.NumberedExactly | src/query-similarity.ts:175-181 | a numbered parameter has the identity bound to its number, and one of its own otherwise |
| AstShapes.ParametersExactly | src/query-similarity.ts:207-228 | nothing else is a parameter |
| AstShapes.ConstantsExactly | src/query-similarity.ts:154-156 | two constants have the same normal form if and only if their bodies have the same keys, locations aside |
| AstShapes.OneMemberExactly | src/query-similarity.ts:230-262 | replacing one member of a node leaves its normal form the same if and only if the key is location, stmt_location or stmt_len or the normal form of the member stays the same |
| AstDigest.RenamedIffAlike | src/query-similarity.ts:192-262 | the renamed normal form of one tree is that of another exactly when the trees are alike under the renaming |
| AstDigest.NormalFormHasNoRefs | src/query-similarity.ts:192-262 | no normal form contains what the canonical form writes for a parameter |
| AstDigest.SortsAgree | src/query-similarity.ts:232-246 | sorted keys make objects with the same members the same |

## Left out

- MigrationRun.BuildMigrationPlan: tied to the specification only when versions are distinct, which is what `migrate check` establishes; with duplicate versions the walk over squash files depends on the order of the files.
- MigrationRun.ExecuteApply: migration SQL leaves the history table alone and contains no transaction control; what it does to the session is one bit, whether `RESET ALL` has followed it.
- MigrationPlan.PlanConverges: for files in version order and clean histories. MigrationLimits shows for each condition an input for which planning again is refused.
- MigrationRun.CheckMigrationFiles: of the checks of `migrate check`, those of versions and squash files; file names, metadata and down files without an up file would only add easy members.
- QueryId.NormalizeIsIdempotent: the condition for every query is on its normal form; the condition on the query itself, ClearQuery, is exact for keeping the pieces and sufficient for this.
- SqlRewrite.OriginalPositionPoints: positions are positive integers up to one past the text; inside a rewritten placeholder the map need not be monotone.
- PgArrayCodec.SerializedRoundTrip: the serializer and the element parser are total functions; one that throws is not modelled. Values are told apart as the code tells them apart, with `String(value)` as part of the value.
- PgServer.HstoreIsRead: of hstore texts, those made of the written forms; what else the parser lets through, such as garbage between entries, is not characterised. The same holds of PgServer.CompositeIsRead.
- AstShapes.ConstantsExactly: for keys without a plus sign, as the parser writes them; the code joins keys with it.
- PgCodecs.HstoreRoundTrip: the entries of an object with string or null values; other values are refused before anything is written.
- Publication.PublishTargets: the caller holds the publication lock, backup names are fresh and all paths distinct; a rename is atomic. Replacing symbolic links, staging and the lock itself are not modelled.
- JsonDecode.DecodeRoundTrip: `Number()` on tokens is an arbitrary function (JsonRoundTrip.NumbersComeBack says what follows from two facts about it), and a Temporal factory is assumed to read back the string form it wrote; object key order is code unit order, so the special place of integer-like keys in JavaScript objects is not modelled.
- JsonSnapshot.CreateSqlxJson: starts from plain JSON-like values; accessors, symbols, prototypes, circular references and the caches of key lists, bigints and Temporal texts are not modelled.
- PoolRuntime.ManagedPool.StartOperation: registering an abort listener cannot throw; deadlines and grace periods are nondeterministic steps.
- SavepointTheorems.SavepointOutcome: user SQL contains no transaction control of its own, and the connection answers in order. Hooks of other notifications than query-start run where every client refuses calls or where the turn's own changes are made; their calls are turns of their own.
- AstDigest.FragmentsAgree: the hash of the canonical form, SHA-256 of its JSON text, is taken to be injective by the program and is not modelled; nor are fragment groups, node counts and identifiers. Numbers in trees are integers or texts, and a constant node has a body.
- Characters in SQL and literal texts are Unicode scalar values: one beyond U+FFFF counts as one position where JavaScript counts two. Extended JSON works on UTF-16 code units.
- Positional placeholder numbers are natural numbers, without the rounding of `Number()`.
- Lifecycle events, error texts and diagnostics are not modelled beyond the error kinds named in the result types.
- The PostgreSQL driver, the wire protocol, timers, query bootstrap and parameter encoding are nondeterministic steps.
- The publication lock, the advisory lock session and the key files: their guarantees rest on process liveness and clocks, or they would only add easy members.
- SQL text generation, catalog queries, SQL parsing, TypeScript scanning, the command line, configuration, templates and file rendering.
- Vectors, ranges and the codec registry of src/postgres-codecs.ts, beyond quoted text, hstore and composites.
