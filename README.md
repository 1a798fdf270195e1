# PAL perf tracer bookkeeping, in Dafny

This project models the bookkeeping of the PAL performance tracer of the
CoreCLR PAL, `src/coreclr/pal/src/misc/perftrace.cpp`. When the tracer is
on, the `PERF_ENTRY` and `PERF_EXIT` macros around every PAL API call
count calls and time them in a per-thread table. That table holds one
record per API: entries, exits, the minimum, maximum and sum of the
durations, and a histogram of durations. At shut-down the tables are folded
into the first thread's table, and its summary and histogram rows are
written.

The files:

- `words.dfy` (module `Words`): the `DWORD`, `ULONGLONG` and `long` types.
  C's wrap-around addition and subtraction are written out and proved to be
  arithmetic modulo 2^32 and 2^64.
- `wrappers.dfy` (module `Wrappers`): `Option`. An unset or empty
  environment variable is `None`.
- `api_stats.dfy` (module `ApiStats`):
  - the per-API record `pal_perf_api_info`;
  - one exit (`PERFUpdateApiInfo`), modelled as the method `UpdateApiInfo`
    on the thread's table, which is an array of records;
  - the merge loop of `PERFlushAllLogs`, modelled as the method
    `MergeTables`;
  - the functions they are proved against: `Recorded`, `Merged`, and the
    closed form `Summary` of a whole run of exits.

  The update uses the corrected bucket rule of the second "## Findings"
  row, `Bucket`. The source's rule is `BucketAsWritten`.
- `settings.dfy` (module `Settings`): the traced-APIs map and the histogram
  settings that `PERFReadSetting` derives from the environment. The step is
  read by the corrected rule of the first "## Findings" row,
  `HistogramStep`. The source's rule is `PositiveSetting`.
- `report.dfy` (module `Report`): the rows `PERFWriteCounters` prints for
  the merged table. The printed minimum replaces the `_UI64_MAX` sentinel
  by 0, and rows are filtered by `report_only_called_apis`.
- `perf_trace.dfy` (module `PerfTrace`):
  - the globals, as the class `PerfTracer`;
  - `program_info`, as the class `ProgramInfo`;
  - `pal_perf_thread_info`, as the class `ThreadInfo`;
  - every operation as a `PerfTracer` method: `PERFInitialize`,
    `PERFReadSetting`, `PERFAllocThreadInfo`, the entry and exit logging,
    the thread and process profile switches, `PERFUpdateProgramInfo` and
    `PERFlushAllLogs`.

How the source's inputs reach the model:

- `PERFGetTicks` readings are `now` parameters. The flush takes one reading
  per thread.
- The calling thread's record, which the source finds through thread-local
  storage, is a `ThreadInfo?` parameter. A record in that slot is always on
  the registered list, so the per-call operations require `local in threads`.
- The caller's start tick `*pal_perf_start_tick` is passed in, and the new
  value is returned.
- The outcomes of the environment lookups, file probes and `fopen` calls
  are parameters.
- `PERFReadSetting` runs only inside `PERFInitialize`, before any thread
  has registered. Its contract therefore asks for an empty thread list. A
  new histogram size could not reshape tables that already exist.

## Model

| member | source | states |
|---|---|---|
| Words.WrapsModulo | src/coreclr/pal/src/misc/perftrace.cpp:49-58 | `ULONGLONG` addition and subtraction, and `DWORD` addition, are the integer results reduced modulo 2^64 and 2^32 |
| ApiStats.QuotientIsDivision | src/coreclr/pal/src/misc/perftrace.cpp:1088 | the repeated-subtraction quotient used by the bucket definitions is C's unsigned `duration / step`, and `q * step <= duration < (q + 1) * step` |
| ApiStats.Divide | src/coreclr/pal/src/misc/perftrace.cpp:1088 | the machine division of the duration by the step equals the reference quotient |
| ApiStats.BucketAsWritten | src/coreclr/pal/src/misc/perftrace.cpp:1088-1092 | the bucket as the source computes it lies inside the histogram and agrees with the corrected `Bucket` whenever the quotient fits in a `DWORD` |
| ApiStats.Bucket | src/coreclr/pal/src/misc/perftrace.cpp:1088-1092 | the clamped bucket index is always inside the histogram |
| ApiStats.BucketRange | src/coreclr/pal/src/misc/perftrace.cpp:1088-1092 | bucket `b` holds exactly the durations in `[b * step, (b + 1) * step)`, and the last bucket also holds every longer one |
| ApiStats.BucketAsWrittenWraps | src/coreclr/pal/src/misc/perftrace.cpp:1088 | with the `(DWORD)` cast of the quotient, a 2^32-tick call in steps of 1 lands in bucket 0, while the intended bucket is the last one, 9 |
| ApiStats.Fresh | src/coreclr/pal/src/misc/perftrace.cpp:403-425 | a record from the init loop has no entries, no exits and a sum of 0, the `_UI64_MAX` sentinel as minimum, 0 as maximum, and a histogram of the configured size with every bucket 0 |
| ApiStats.Recorded | src/coreclr/pal/src/misc/perftrace.cpp:1078-1094 | after one exit the duration lies between the new minimum and maximum, the minimum only falls and the maximum only rises, each becomes either its old value or the duration, and the entries and the histogram length are unchanged |
| ApiStats.RecordedExactly | src/coreclr/pal/src/misc/perftrace.cpp:1078-1094 | one exit adds 1 to the counter and the duration to the sum, modulo 2^64; it adds 1, modulo 2^32, to exactly the duration's bucket and leaves every other bucket alone; with no buckets the histogram is untouched |
| ApiStats.Entered | src/coreclr/pal/src/misc/perftrace.cpp:1171 | a counted entry adds 1 to `entries`, modulo 2^64, and changes no other field |
| ApiStats.UpdateApiInfo | src/coreclr/pal/src/misc/perftrace.cpp:1074-1096 | the in-place update leaves record `id` equal to `Recorded` of its old value and leaves every other record of the table unchanged |
| ApiStats.Run | src/coreclr/pal/src/misc/perftrace.cpp:1078-1094 | a run of exits never changes the entries or the histogram length |
| ApiStats.LeastBounds | src/coreclr/pal/src/misc/perftrace.cpp:1080-1081 | the running minimum is at most the start value and every duration, and is equal to one of them |
| ApiStats.GreatestBounds | src/coreclr/pal/src/misc/perftrace.cpp:1082-1083 | the running maximum is at least the start value and every duration, and is equal to one of them |
| ApiStats.LeastFrom | src/coreclr/pal/src/misc/perftrace.cpp:1080-1081 | the running minimum from any start is the start's minimum with the running minimum from `_UI64_MAX` |
| ApiStats.GreatestFrom | src/coreclr/pal/src/misc/perftrace.cpp:1082-1083 | the running maximum from any start is the start's maximum with the running maximum from 0 |
| ApiStats.SummaryStep | src/coreclr/pal/src/misc/perftrace.cpp:1078-1094 | one more exit on top of the closed form of a run is the closed form of the longer run |
| ApiStats.RunIsSummary | src/coreclr/pal/src/misc/perftrace.cpp:1074-1096 | replaying exits one update at a time gives the closed form: the counter grows by their number and the sum by their total (mod 2^64), the minimum and maximum take in every duration, and each bucket grows by the number of durations that fall into it (mod 2^32) |
| ApiStats.RunConsistent | src/coreclr/pal/src/misc/perftrace.cpp:1078-1083 | updates keep `counter > 0 ==> min <= max`, and after at least one exit the minimum does not exceed the maximum, fresh records included |
| ApiStats.Merged | src/coreclr/pal/src/misc/perftrace.cpp:536-551 | a source record without exits leaves the target as it is; otherwise the minimum becomes the lesser and the maximum the greater of the two records' values, and the histogram keeps its size |
| ApiStats.MergedExactly | src/coreclr/pal/src/misc/perftrace.cpp:540-551 | folding in a source record with exits adds its entries, exits and sum modulo 2^64, and each of its buckets to the same bucket of the target modulo 2^32 |
| ApiStats.MergedTable | src/coreclr/pal/src/misc/perftrace.cpp:533-552 | the merged table keeps the table's shape, and each of its records is the merge of the two records at that index |
| ApiStats.MergeTables | src/coreclr/pal/src/misc/perftrace.cpp:533-552 | the nested in-place loop leaves the target table equal to `MergedTable` of its old contents and the source table |
| ApiStats.MergedSummary | src/coreclr/pal/src/misc/perftrace.cpp:533-552 | folding a secondary thread's record that recorded a non-empty run of exits into a target gives the closed form of those exits applied to the target, except that the entry counts are added as they are |
| ApiStats.MergeRun | src/coreclr/pal/src/misc/perftrace.cpp:533-552 | the same result stated for records updated one exit at a time: merging equals replaying the secondary thread's exits on the first thread's record |
| ApiStats.MergeSkipsUnexited | src/coreclr/pal/src/misc/perftrace.cpp:536-539 | a source record with no exits leaves the target unchanged, even when that record counted entries |
| ApiStats.MergedConsistent | src/coreclr/pal/src/misc/perftrace.cpp:546-549 | merging keeps `counter > 0 ==> min <= max` |
| Settings.MarkLine | src/coreclr/pal/src/misc/perftrace.cpp:868-889 | one line of the file sets exactly the slot of the in-range API it names, and keeps every slot that is already set |
| Settings.MarkedMap | src/coreclr/pal/src/misc/perftrace.cpp:861-890 | the map built from the file's lines has one slot per API |
| Settings.MarkedMapExactly | src/coreclr/pal/src/misc/perftrace.cpp:861-890 | after the file is read, API `i` is marked exactly when some line that is neither blank nor a comment names index `i`; out-of-range indices mark nothing |
| Settings.TracedMap | src/coreclr/pal/src/misc/perftrace.cpp:851-899 | the traced-APIs map has one slot per API |
| Settings.TracedMapExactly | src/coreclr/pal/src/misc/perftrace.cpp:851-899 | every API is traced when the file is missing or cannot be opened; otherwise exactly the APIs the file names are traced |
| Settings.PositiveSetting | src/coreclr/pal/src/misc/perftrace.cpp:777-799 | an unset, empty or non-positive setting keeps the current value; a positive one replaces it, reduced modulo 2^32 by the `(DWORD)` cast |
| Settings.StepSettingCanBeZero | src/coreclr/pal/src/misc/perftrace.cpp:789-799 | `PAL_PERF_HISTOGRAM_STEP=4294967296` passes the positivity test but sets a step of 0 |
| Settings.HistogramStep | src/coreclr/pal/src/misc/perftrace.cpp:789-799 | the corrected step read: a positive step stays positive; whenever the `DWORD` value of the setting is positive it is the new step, exactly as in the source; otherwise the step is kept |
| Settings.HistogramStepOnWideSettings | src/coreclr/pal/src/misc/perftrace.cpp:789-799 | the corrected rule keeps the step for the setting 2^32, whose cast is 0, and still takes 5 from the setting 2^32 + 5, as the cast does |
| Report.ReportedMin | src/coreclr/pal/src/misc/perftrace.cpp:628 | the printed minimum is the recorded minimum, except that the `_UI64_MAX` sentinel prints as 0 |
| Report.Listed | src/coreclr/pal/src/misc/perftrace.cpp:638 | an API has a summary row exactly when it recorded an exit or `report_only_called_apis` is off |
| Report.SummaryOfRows | src/coreclr/pal/src/misc/perftrace.cpp:622-646 | each summary row belongs to an API that is listed, and prints its entries, its exits, its sum, its maximum, and a minimum of 0 when the minimum is still `_UI64_MAX` |
| Report.SummaryOfOrdered | src/coreclr/pal/src/misc/perftrace.cpp:622-646 | summary rows come in strictly increasing API order |
| Report.SummaryOfComplete | src/coreclr/pal/src/misc/perftrace.cpp:622-646 | every API with `counter > 0`, or every API when `report_only_called_apis` is off, has a summary row |
| Report.SummaryOfIsSummary | src/coreclr/pal/src/misc/perftrace.cpp:622-646 | the summary rows are exactly the listed APIs, once each and in order |
| Report.HistogramsOfRows | src/coreclr/pal/src/misc/perftrace.cpp:670-685 | each histogram row belongs to an API that recorded an exit, and holds that API's buckets |
| Report.HistogramsOfOrdered | src/coreclr/pal/src/misc/perftrace.cpp:670-685 | histogram rows come in strictly increasing API order |
| Report.HistogramsOfComplete | src/coreclr/pal/src/misc/perftrace.cpp:670-685 | every API that recorded an exit has a histogram row |
| Report.HistogramsOfIsReport | src/coreclr/pal/src/misc/perftrace.cpp:670-685 | the histogram rows are exactly the APIs that recorded an exit, once each and in order |
| Report.ReportedMinOfRun | src/coreclr/pal/src/misc/perftrace.cpp:628 | for a record that started fresh, the printed minimum is 0 when no exit was recorded; otherwise it is the least recorded duration, unless every duration was the sentinel itself |
| Report.SummaryRows | src/coreclr/pal/src/misc/perftrace.cpp:622-646 | the first loop of `PERFWriteCounters` produces the summary rows of the table, which are exactly those of the listed APIs in order |
| Report.HistogramRows | src/coreclr/pal/src/misc/perftrace.cpp:670-685 | the second loop produces the histogram rows of the table, which are exactly those of the APIs that recorded an exit, in order |
| Report.WriteCounters | src/coreclr/pal/src/misc/perftrace.cpp:606-695 | the status is -1 exactly when the summary log or a needed histogram log does not open; the summary rows are written when the summary log opens; the histogram rows are written only when histograms are on and both logs open |
| PerfTrace.Stopped | src/coreclr/pal/src/misc/perftrace.cpp:1229-1233 | stopping the process clock leaves it stopped; a clock that was not running is unchanged; otherwise the elapsed time grows by the ticks since the start, modulo 2^64 |
| PerfTrace.StopIsIdempotent | src/coreclr/pal/src/misc/perftrace.cpp:1229-1233 | a second stop of the process clock changes nothing, whatever the tick |
| PerfTrace.ThreadTime | src/coreclr/pal/src/misc/perftrace.cpp:490-496 | a thread that went through the thread disable adds its own total to the program; otherwise it adds the ticks since its start, modulo 2^64 |
| PerfTrace.AddSumsModulo | src/coreclr/pal/src/misc/perftrace.cpp:499-502 | adding a table's `sum_duration` fields one by one with wrap-around adds their total modulo 2^64 |
| PerfTrace.AddTablesModulo | src/coreclr/pal/src/misc/perftrace.cpp:499-502 | over the whole flush, `pal_duration` grows by the sum of `sum_duration` over every record of every table, modulo 2^64 |
| PerfTrace.AddTicksModulo | src/coreclr/pal/src/misc/perftrace.cpp:496 | over the whole flush, `total_duration` grows by the sum of the thread times, modulo 2^64 |
| PerfTrace.MergedEntryCounter | src/coreclr/pal/src/misc/perftrace.cpp:533-552 | the merged record's counter is the first thread's counter plus every other thread's exits, modulo 2^64 |
| PerfTrace.MergedEntryEntries | src/coreclr/pal/src/misc/perftrace.cpp:533-552 | the merged record's entries are the first thread's entries plus those of the other threads that recorded an exit of that API, modulo 2^64; entries of a thread that never saw the API return are dropped |
| PerfTrace.MergedEntryConsistent | src/coreclr/pal/src/misc/perftrace.cpp:533-552 | folding all the tables keeps `counter > 0 ==> min <= max` for every merged record |
| PerfTrace.MergedPrefixIs | src/coreclr/pal/src/misc/perftrace.cpp:533-552 | a table whose every record is the merged record is the merged table |
| PerfTrace.ThreadInfo.constructor | src/coreclr/pal/src/misc/perftrace.cpp:435-439 | a new thread record has its guard down and a start tick and total of 0 |
| PerfTrace.ProgramInfo.constructor | src/coreclr/pal/src/misc/perftrace.cpp:110 | the process clock and the counters of `program_info` start at 0 |
| PerfTrace.PerfTracer.constructor | src/coreclr/pal/src/misc/perftrace.cpp:113-145 | before `PERFInitialize` tracing and profiling are off, there is no map, no thread is registered, every switch is off, and the histogram size is 0 with a step of 100 |
| PerfTrace.PerfTracer.Initialize | src/coreclr/pal/src/misc/perftrace.cpp:296-341 | tracing is on exactly when `PAL_PERF_TRACING` is set; the result is true when tracing is off or every set-up step succeeded; `program_info` is reset and profiling is off once the program information is read; the map exists only if it was allocated after the TLS key; when set-up succeeds, the settings and map are those `PERFReadSetting` derives from the environment |
| PerfTrace.PerfTracer.ReadSetting | src/coreclr/pal/src/misc/perftrace.cpp:699-899 | the four switches follow their variables; the histogram size follows the positive-value rule with its `DWORD` cast; the step follows the corrected rule, which takes a setting only when its `DWORD` value is positive; the map is `TracedMap` of the traced-APIs file; the result is true exactly when that file was opened |
| PerfTrace.PerfTracer.MarkTracedApis | src/coreclr/pal/src/misc/perftrace.cpp:861-890 | clearing the map and then walking the lines in order leaves exactly `MarkedMap` of the lines |
| PerfTrace.PerfTracer.FillMap | src/coreclr/pal/src/misc/perftrace.cpp:856 | `memset` sets every slot of the map to the value |
| PerfTrace.PerfTracer.Tracing | src/coreclr/pal/src/misc/perftrace.cpp:1030-1031 | entry and exit logging go ahead only when tracing is on, the map exists and process profiling is on |
| PerfTrace.PerfTracer.Traced | src/coreclr/pal/src/misc/perftrace.cpp:1110-1122 | a call of an API is logged only when `Tracing` holds and the map marks the API |
| PerfTrace.PerfTracer.AllocThreadInfo | src/coreclr/pal/src/misc/perftrace.cpp:361-479 | with tracing off nothing is registered; otherwise a new record is put at the head of the list with one fresh record per API (no entries or exits, minimum `_UI64_MAX`, maximum and sum 0, all buckets 0), its guard down and its clock at 0; the tracer stays valid |
| PerfTrace.PerfTracer.LogFunctionEntry | src/coreclr/pal/src/misc/perftrace.cpp:1017-1069 | a traced call on a thread whose guard is up adds one entry to that API and to no other, leaves the guard up only under nested tracing, and returns the tick as the start tick; in every other case nothing changes and the start tick is kept |
| PerfTrace.PerfTracer.LogFunctionExit | src/coreclr/pal/src/misc/perftrace.cpp:1098-1151 | with a non-zero start tick, a traced call on a thread with a record records the ticks since the start into that API alone, clears the start tick and raises the guard; in every other case nothing changes |
| PerfTrace.PerfTracer.NoLatencyProfileEntry | src/coreclr/pal/src/misc/perftrace.cpp:1154-1174 | a traced call adds one entry to that API, whatever the guard, and changes nothing else |
| PerfTrace.PerfTracer.Switches | src/coreclr/pal/src/misc/perftrace.cpp:1186 | a thread switch applies only with tracing on and a thread record; an external call always applies, and an internal one only under nested tracing |
| PerfTrace.PerfTracer.EnableThreadProfile | src/coreclr/pal/src/misc/perftrace.cpp:1178-1190 | when tracing is on, the thread has a record, and the call is external or nested tracing is on, the guard goes up and the thread's clock restarts; otherwise nothing changes; the total is never touched |
| PerfTrace.PerfTracer.DisableThreadProfile | src/coreclr/pal/src/misc/perftrace.cpp:1194-1206 | under the same rule, the guard goes down and the total becomes the ticks since the thread's clock started; otherwise nothing changes |
| PerfTrace.PerfTracer.EnableProcessProfile | src/coreclr/pal/src/misc/perftrace.cpp:1210-1218 | unless tracing is off or start-up is awaited, profiling goes on and the process clock starts at `now`; otherwise nothing changes |
| PerfTrace.PerfTracer.DisableProcessProfile | src/coreclr/pal/src/misc/perftrace.cpp:1222-1233 | when tracing is on, profiling goes off and the process clock is `Stopped`: time is added only if the clock was running; otherwise nothing changes |
| PerfTrace.PerfTracer.PalEnableProcessProfile | src/coreclr/pal/src/misc/perftrace.cpp:1301-1309 | start-up is no longer awaited and profiling is on even when tracing is off; the process clock starts only when tracing is on |
| PerfTrace.PerfTracer.PalDisableProcessProfile | src/coreclr/pal/src/misc/perftrace.cpp:1311-1318 | profiling is off in any case; the process clock is stopped only when tracing is on |
| PerfTrace.PerfTracer.UpdateProgramInfo | src/coreclr/pal/src/misc/perftrace.cpp:481-504 | a thread that never went through the thread disable gets the ticks since its start as its total; that total is added to the program's, and every `sum_duration` of the thread's table is added to `pal_duration`, with wrap-around; a missing record changes nothing |
| PerfTrace.PerfTracer.FoldTable | src/coreclr/pal/src/misc/perftrace.cpp:530-552 | one pass of the merge loop turns the merge of the first `k` tables into the merge of the first `k + 1` |
| PerfTrace.PerfTracer.FoldThread | src/coreclr/pal/src/misc/perftrace.cpp:524-563 | one iteration of the list walk folds the next thread's table, settles that thread's time into `program_info`, and keeps the pending threads' times |
| PerfTrace.PerfTracer.WalkThreads | src/coreclr/pal/src/misc/perftrace.cpp:509-565 | after the walk the head's table is the merge of every table in list order, `pal_duration` has added every table's sums, and `total_duration` has added every thread's time |
| PerfTrace.PerfTracer.FlushAllLogs | src/coreclr/pal/src/misc/perftrace.cpp:507-576 | with no thread nothing happens; otherwise the head's table becomes the merge of every table, each thread adds its settled time and the sums of its table to `program_info`, the rows written are those of the merged table, and the list is released |

## Left out

- File and console I/O are left out: the per-thread log buffers, `PERFFlushLog`, the text layout of both logs, `PERFPrintProgramHeaderInfo`, `PERFLogFileName`, and the histogram header line with its step multiples. A report row holds the values that would be printed.
- Environment lookups, `PERFIsValidPath`, `PERFIsValidFile`, and the reading and `sscanf_s` splitting of the file's lines are inputs. The model receives each line already classified as blank, comment or a name with an index.
- A line that `sscanf_s` cannot fully parse leaves the previous `index` in the source. The model's `Entry` line always carries its own index.
- The file of enabled APIs (`PAL_PERF_ENABLEDAPIS_FILE`) and the `API_list` of names are left out, because names appear only in the printed text.
- ApiStats.UpdateApiInfo: uses the corrected bucket rule `Bucket` of the second "## Findings" row. It differs from the source when `duration / step` is 2^32 or more and that quotient modulo 2^32 is below the last bucket: the model counts the call in the last bucket, and the source in that lower bucket.
- ApiStats.Recorded: uses the same corrected bucket rule, with the same difference on the same inputs.
- PerfTrace.PerfTracer.LogFunctionExit: records through `UpdateApiInfo`, so it uses the corrected bucket rule and differs on the same inputs.
- PerfTrace.PerfTracer.ReadSetting: reads the step by the corrected rule `HistogramStep` of the first "## Findings" row. It differs from the source only for a positive setting that is a multiple of 2^32: the model keeps the current step, and the source sets the step to 0.
- PerfTrace.PerfTracer.ReadSetting: the result covers only the traced-APIs file. A failed name copy from the enabled-APIs file can also make the source's result false, and `PERFInitialize` ignores the result either way.
- `PERFGetTicks`, `gettimeofday` and the TLS calls are inputs. The `pthread_key_delete` after a failed map allocation is left out.
- Floating point is left out: `sum_of_square_duration`, the standard deviation, the CPU frequency and `PERFCalibrate`. These fields are not part of the record.
- PerfTrace.PerfTracer.Initialize: `PERFInitProgramInfo` is reduced to its outcome. The command line, executable path, host name and start time it records are left out.
- PerfTrace.PerfTracer.AllocThreadInfo: `malloc` and `pthread_setspecific` failures and the goto cleanup are left out. With tracing on, the model always registers the record, and the result is the record rather than the source's `BOOL`.
- PERFTerminate, its once-guard, and every `free` are left out. After the flush the thread records are gone in the source, so the model states nothing about their fields afterwards.
- PerfTrace.PerfTracer.FlushAllLogs: the source unlinks nodes from `process_pal_thread_list` one by one. The model walks a copy of the list and empties the list at the end. The status of `PERFWriteCounters` is ignored, as in the source.
- The histogram of a record is a sequence inside the record, not a separately allocated `DWORD` array. A table is an `array` of records, so records are updated in place but buckets are not aliased. A size of 0 gives an empty histogram where the source has a null pointer.
- `PERFIsProcessProfileEnabled` and `PAL_IsProcessProfileEnabled` only return `pal_profile_on`, which is the `profileOn` field. `PAL_GetCpuTickCount` only returns `PERFGetTicks()`.
- The exported `DllMain` of `src/coreclr/dlls/mscordbi/mscordbi.cpp` forwards to `DbgDllMain`, which holds the logic and is not part of this component.
- Concurrency is left out. The source updates the thread list and the globals without locks, and the model runs operations one at a time.

## Findings

| source | as written | input that shows it | evidently intended | confidence | as-written member | corrected member |
|---|---|---|---|---|---|---|
| src/coreclr/pal/src/misc/perftrace.cpp:793-798 | `value > 0` is tested on the `long`, then the value is cast to `DWORD` | `PAL_PERF_HISTOGRAM_STEP=4294967296`: the value is positive, the step becomes 0, and `PERFUpdateApiInfo` divides by it on the first exit while histograms are on | accept only steps that stay positive as a `DWORD` | not executed | Settings.StepSettingCanBeZero | Settings.HistogramStep |
| src/coreclr/pal/src/misc/perftrace.cpp:1088-1092 | the quotient `duration / step` is cast to `DWORD` before it is clamped to the last bucket | a call of 2^32 ticks, a step of 1 and 10 buckets: the cast gives bucket 0 instead of bucket 9 | clamp the full quotient, so that long calls land in the last bucket | not executed | ApiStats.BucketAsWrittenWraps | ApiStats.BucketRange |
