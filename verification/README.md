# Online backup driver and virtual-table module registry, modelled in Dafny

This project models two control components of a Go binding of the SQLite
engine:

- **The online-backup driver** (`backup.go`). `Backup` folds its options over
  the defaults. `newBackup` opens the destination and the source, converts
  the two database names to C strings and creates the native backup object.
  Resources acquired before a failure are freed by deferred `freeOnError`
  calls. The loop then checks the context, takes one `step`, classifies the
  result code (OK, DONE, BUSY, LOCKED or other), reports progress and sleeps.
  Last, `close` runs its three teardown actions and keeps the first error.
- **The module registry** (`vtab.go`). `CreateModule` keeps the per-connection
  map from module name to `registeredModule`. It registers, replaces, or
  unregisters when the module is nil. `newModule` builds the native
  `sqlite3_module` table: a version plus 23 callback slots. `create_module`
  and `errstr` turn a native status into an error.

The engine is an oracle. Every native call's outcome is an input:

- a `SetupOracle` for the opens, conversions and `backup_init`;
- one `Tick` per loop iteration (the context was done, or the step's status
  with the `remaining`/`pagecount` sampled after it);
- a `TeardownOracle` for `close`;
- a `RegisterReply` for module registration.

The loop is a pure function of the tick trace. A trace that runs out while
the loop still continues ends in `StillLooping`. The calls the loop makes are
recorded as events: step, progress and sleep.

Modules: `Base` (ranges, result codes, errors), `Decimal` (Go's `%v` for
integers and its parser), `BackupConfig`, `BackupSession`, `BackupLoop`,
`BackupDriver`, `VtabErrors`, `VtabTable`, `VtabRegistry`.

The model keeps these details as the code has them:

- Progress is not reported for an iteration whose step fails fatally, and
  DONE reports once, not twice.
- The sleep is the `for` loop's post statement (backup.go:39). It runs after
  OK steps as well as BUSY/LOCKED ones, and it cannot be cancelled. No
  cancellation check happens before it.
- A failed `backup_init` releases nothing (see Findings). `BackupAsWritten` and
  `NewBackupAsWritten` keep this behaviour. `Backup`, `NewBackup` and the
  driver lemmas use the corrected setup, which releases the four resources.

## Model

| member | source | states |
|---|---|---|
| BackupConfig.ConfigureIsLastWins | backup.go:23-26 | Folding the options over the defaults gives each field the value of the last option that sets it, or its default (250 ms, 50 pages, no-op progress, "main", "main") when none does |
| BackupConfig.DefaultsWithoutOptions | backup.go:78-86 | With no options the configuration is 250 ms sleep, 50 pages, no-op progress, source and destination "main" |
| BackupConfig.LaterOptionOverrides | backup.go:93-130 | Of two options setting the same field, wherever they stand and whatever lies between and after them, the earlier has no effect; when no later option sets that field, it holds the later one's value |
| BackupSession.NewBackup | backup.go:143-195 | The corrected setup: it succeeds exactly when both opens, both name conversions and backup_init succeed; on success nothing is released and the session holds all five resources; on any failure every acquired resource is released, last acquired first; acquired resources are distinct |
| BackupSession.NewBackupAsWritten | backup.go:182-184 | When everything succeeds but backup_init, the source returns an error with four resources acquired and none released |
| BackupSession.InitFailureLeaks | backup.go:152-184 | Concrete case: the backup_init error is returned, the two handles and two names stay allocated, while the corrected setup releases all four in reverse order |
| BackupSession.NewBackupSameResult | backup.go:158-194 | The corrected and as-written setups return the same value and acquire the same resources; they release the same resources unless `backup_init` is the step that fails |
| BackupSession.Step | backup.go:214-219 | step returns nil iff the native code is OK; otherwise an error carrying that code and the engine's text |
| BackupSession.Close | backup.go:197-212 | close fails iff one of its three actions fails, and always releases the backup object, source, destination, source name and destination name, in that order |
| BackupSession.CloseReportsFirstFailure | backup.go:202-211 | The error close returns is that of the first failing action among finish, close source, close destination |
| BackupLoop.Classify | backup.go:45-59 | nil, BUSY and LOCKED continue and nothing else does; DONE finishes; an error that is not an engine error aborts with that error; an abort carries exactly the error step returned |
| BackupLoop.VerdictOfStatus | backup.go:45-59 | In terms of the native code: OK, BUSY and LOCKED continue; DONE finishes; every other code aborts with that code |
| BackupLoop.LoopFrom | backup.go:38-63 | The loop never uses more ticks than it is given, uses at least one, and when still running after the trace has made exactly three calls per tick |
| BackupLoop.RunLoop | backup.go:38-63 | The imperative loop (sleep as post statement, break on DONE, return on cancel or fatal error) makes the same calls and ends the same way as the reference loop |
| BackupLoop.LoopStopsAtFirstStop | backup.go:40-63 | The loop passes every tick that continues and stops at the first that does not, returning ctx.Err() for a cancellation, nil for DONE and the step error otherwise; it runs on iff every tick continues |
| BackupLoop.RetryableNeverSurfaces | backup.go:54-56 | No engine error the loop returns has code OK, BUSY, LOCKED or DONE |
| BackupLoop.LoopCounts | backup.go:39-61 | Progress calls equal the consumed ticks whose step returned OK, BUSY, LOCKED or DONE; step calls equal the consumed ticks that were not cancellations; sleeps equal iterations that did not return |
| BackupLoop.LoopEventsWellOrdered | backup.go:39-61 | Each iteration starts with step; progress only follows a step, a sleep only follows progress, and a step is first or follows a sleep; every call uses the configured values |
| BackupLoop.LoopUsesConfig | backup.go:39-61 | Every step asks for the configured page count, every progress call goes to the configured callback, every sleep lasts the configured time |
| BackupLoop.CancellationStopsStepping | backup.go:40-44 | Cancellation seen at iteration k returns ctx.Err() with no step or progress call for that iteration, after exactly three calls per earlier iteration |
| BackupLoop.DoneEndsLoop | backup.go:51-53 | A DONE step at iteration k ends the loop with nil, its single progress report as the last call |
| BackupDriver.Drive | backup.go:28-63 | After setup: close runs only when the loop returns; a run still looping has made three calls per tick; the setup's acquisitions are kept and its releases come first |
| BackupDriver.Backup | backup.go:22-64 | The driver with the corrected setup: close runs only when Backup returns; a run still looping has made three calls per tick |
| BackupDriver.BackupAsWritten | backup.go:22-64 | The driver with the setup as written: close runs only when Backup returns; a run still looping has made three calls per tick |
| BackupDriver.AsWrittenLeaksOnlyOnInitFailure | backup.go:28-31 | The driver as written ends, calls and acquires exactly as the corrected one; when only backup_init fails it releases none of the two handles and two names the corrected one releases; on every other input it releases the same |
| BackupDriver.SetupFailureIsWrapped | backup.go:28-31 | A setup failure is returned wrapped as "unable to initiate backup"; close is never called and no step is taken |
| BackupDriver.LoopErrorTakesPrecedence | backup.go:32-36 | After setup, a loop error or ctx.Err() is returned whatever close says; close's error is returned only when the loop returned nil; close runs whenever the loop returns |
| BackupDriver.NothingLeaks | backup.go:143-212 | With the corrected setup, whenever Backup returns the resources released are exactly those acquired, each once; while still looping nothing is released |
| BackupDriver.SucceedsExactlyWhen | backup.go:22-64 | Backup returns nil iff setup succeeds, the first non-continuing step is DONE, and all three teardown actions succeed |
| BackupDriver.DefaultRun | backup.go:78-86 | With no options every step asks for 50 pages, every sleep is 250 ms, progress goes to the no-op callback and both names bound are "main" |
| BackupDriver.CancelledBeforeFirstStep | backup.go:40-42 | Cancelled before the first iteration: Backup returns ctx.Err() even if close fails, without ever calling step |
| Decimal.IntToStringRoundTrip | vtab.go:107-109 | The decimal text %v prints for an integer parses back to that integer |
| VtabErrors.Errstr | vtab.go:101-111 | The error's code is rc |
| VtabErrors.ErrstrMessage | vtab.go:101-111 | The message starts with the generic text and ends with " (rc)", which parses back to rc; ": <msg>" sits between them iff the connection message differs from the generic text |
| VtabErrors.TrailingCodeRoundTrip | vtab.go:107-109 | Whatever text precedes it, the " (rc)" suffix reads back as rc |
| VtabErrors.CreateModuleNative | vtab.go:85-98 | create_module returns nil iff the name converts and the native call returns OK; a conversion error is returned as is; a native failure is errstr's error for that code |
| VtabTable.BuildTable | vtab.go:156-265 | The table's version is int32(m.Version()) (wrapped to 32 bits) and all 23 slots dispatch to their own trampoline |
| VtabTable.NewModule | vtab.go:151-267 | A nil module gives NULL and allocates nothing; otherwise a fresh address holds the built table and nothing else in memory changes |
| Base.ToInt32 | vtab.go:159 | Go's int to int32 conversion keeps the value modulo 2^32 and leaves values already in range unchanged |
| VtabRegistry.CreateModule | vtab.go:126-144 | The corrected registration: success iff the native call succeeds; on failure the registry and live tables are unchanged; nil removes the name; a module maps the name to itself and a fresh table; no other name changes |
| VtabRegistry.CreateModuleAsWritten | vtab.go:127-134 | When registration of a module fails, one more table is live than before |
| VtabRegistry.CreateModulePreservesValid | vtab.go:136-142 | Register, replace and unregister keep every entry pointing at a live table built from its module, and no two names share a table |
| VtabRegistry.UnregisterFreesTable | vtab.go:137-139 | Unregistering a registered name removes it and frees exactly its table |
| VtabRegistry.ReplaceKeepsPreviousTable | vtab.go:140-141 | Replacing a name leaves the previous table allocated and referenced by no name |
| VtabRegistry.CreateModuleSameOutcome | vtab.go:126-144 | The corrected and as-written registrations return the same error and registry, and are identical when registration succeeds |
| VtabRegistry.FailedRegistrationLeaks | vtab.go:127-134 | Concrete case: a refused registration returns the error and leaves a new table live that no name refers to |

## Left out

- `openV2` (shared.go) and `libc.CString` are oracles that succeed or fail; their allocation details are not modelled.
- `liberrdbrc`, `liberrrc` and `errcode` are not part of this model. The text of an engine error is supplied by the oracle; its code is the native code.
- `remaining()` and `pagecount()` are values sampled from the oracle after each step. The engine's page copying, and the row-for-row result it gives, belong to the engine.
- Sleep is an abstract event carrying its duration; no clock is modelled. Cancellation is observed only at the top of an iteration, as in the code.
- The loop only ends by itself on DONE or a fatal error. The model follows a finite trace, and a trace that runs out ends in `StillLooping`.
- TLS objects (`libc.NewTLS`, `tls.Close`) are not modelled. This includes the fact that a failed `newBackup` never closes its TLS.
- Releasing is abstract. `freeOnError` passes connection handles to `Xfree` rather than closing them. The model records a release without telling the two apart.
- The progress callback is an opaque identity (`ProgressFunc`). Its effect belongs to the host.
- `create_module` frees its C name string on every path through a defer. That string is not tracked.
- The `x*` callbacks (vtab.go:275-405) all panic as placeholders. Only their presence in the table is modelled.
- Nil function values are not modelled. The code panics on a nil `BackupOption` (backup.go:25) and on a nil progress callback once the loop reports progress (backup.go:52-61); `BackupOption` and `ProgressFunc` have no nil value, so neither panic path is expressible.
- `origin`, `todo` and `trc` (stack reflection and printing) are not modelled.
- The creation of `conn` and its `modules` map is not part of this model. `NewConn` stands for a fresh connection.
- BackupDriver.Backup: composes the corrected setup, so on a `backup_init` failure it releases the two handles and two names that backup.go:182-184 leaves allocated; `BackupDriver.BackupAsWritten` is the driver as written, and `AsWrittenLeaksOnlyOnInitFailure` relates the two.
- BackupDriver.NothingLeaks: holds for the corrected driver only; the driver as written leaks four resources when `backup_init` fails (see Findings). It also states "each released once" as equal length, same members and no duplicates, rather than as multiset equality.

## Findings

| source | as written | input that shows it | evidently intended | confidence | as-written member | corrected member |
|---|---|---|---|---|---|---|
| backup.go:182-184 | A failed `backup_init` returns its error without assigning the captured `err`, so every deferred `freeOnError` sees nil and frees nothing | Both opens and both name conversions succeed, then `sqlite3_backup_init` returns 0 | Release the two handles and two names, as on every earlier failure path | medium; not executed | BackupSession.InitFailureLeaks | BackupSession.NewBackup |
| vtab.go:127-134 | `CreateModule` returns the registration error but never frees the table `newModule` just allocated | A non-nil module, with `sqlite3_create_module` returning a non-OK code | Free the fresh table before returning the error | medium; not executed | VtabRegistry.FailedRegistrationLeaks | VtabRegistry.CreateModule |
