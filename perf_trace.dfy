/** The PAL perf tracer: its process-wide switches and settings, the record
    every thread registers, and the operations that the PERF_ENTRY / PERF_EXIT
    macros and the PAL start-up and shut-down paths call. The calling thread's
    record, which the source finds through thread-local storage, is passed in;
    so are the clock readings of PERFGetTicks. */
module PerfTrace {
  import opened Words
  import opened Wrappers
  import opened ApiStats
  import opened Settings
  import opened Report

  /** What PERFReadSetting takes from the environment, already parsed. */
  datatype Environment = Environment(
    summaryOnly: bool,           // PAL_PERF_SUMMARY_ONLY is set and not empty
    nestedTracing: bool,         // PAL_PERF_NESTED_TRACING
    reportOnlyCalledApis: bool,  // PAL_PERF_REPORT_ONLY_CALLED_APIS
    waitForStartup: bool,        // PAL_PERF_WAIT_FOR_STARTUP
    histogramSize: Option<i64>,  // strtol of PAL_PERF_HISTOGRAM_SIZE, when set and not empty
    histogramStep: Option<i64>,  // strtol of PAL_PERF_HISTOGRAM_STEP, when set and not empty
    tracedApis: TracedApisFile)

  /** The process clock of program_info: when process profiling last started
      (0 when it is stopped) and the ticks profiled so far. */
  datatype Clock = Clock(startTicks: u64, elapsedTime: u64)

  /** The clock after PERFDisableProcessProfile at tick `now`. */
  function Stopped(c: Clock, now: u64): (r: Clock)
    ensures r.startTicks == 0
    ensures c.startTicks == 0 ==> r == c
    ensures c.startTicks != 0 ==> r.elapsedTime == (c.elapsedTime + (now - c.startTicks)) % TWO_64
  {
    WrapsModulo(c.elapsedTime, Sub64(now, c.startTicks), 0, 0);
    WrapsModulo(now, c.startTicks, 0, 0);
    AddMod64(now - c.startTicks, c.elapsedTime);
    if c.startTicks != 0 then Clock(0, Add64(c.elapsedTime, Sub64(now, c.startTicks))) else c
  }

  /** Stopping a stopped clock again changes nothing, whatever the tick. */
  lemma StopIsIdempotent(c: Clock, now: u64, later: u64)
    ensures Stopped(Stopped(c, now), later) == Stopped(c, now)
  {
  }

  /** The time a thread adds to the program total when the logs are flushed:
      its own total when profiling of the thread was stopped, otherwise
      (a total of 0) the ticks since it was started. */
  function ThreadTime(totalDuration: u64, startTicks: u64, now: u64): (t: u64)
    ensures totalDuration != 0 ==> t == totalDuration
    ensures totalDuration == 0 ==> t == (now - startTicks) % TWO_64
  {
    WrapsModulo(now, startTicks, 0, 0);
    if totalDuration == 0 then Sub64(now, startTicks) else totalDuration
  }

  /** The time each thread of a list adds to the program total, given the
      threads' total_duration and start_ticks and the tick read for each. */
  function ThreadTimes(totals: seq<u64>, starts: seq<u64>, clock: seq<u64>): (r: seq<u64>)
    requires |totals| == |starts| == |clock|
    ensures |r| == |totals|
    ensures forall m :: 0 <= m < |r| ==> r[m] == ThreadTime(totals[m], starts[m], clock[m])
  {
    seq(|totals|, m requires 0 <= m < |totals| => ThreadTime(totals[m], starts[m], clock[m]))
  }

  /** The tables of a thread list all have the length of the first one and
      histograms of `size` buckets. */
  predicate Uniform(tables: seq<seq<ApiInfo>>, size: nat) {
    tables != [] && forall m :: 0 <= m < |tables| ==> Shaped(tables[m], |tables[0]|, size)
  }

  /** Record `i` of the first table after the merge loop of PERFlushAllLogs
      has folded in tables 1 to k - 1, in list order. */
  function MergedEntry(tables: seq<seq<ApiInfo>>, k: nat, i: nat, size: nat): (r: ApiInfo)
    requires Uniform(tables, size) && 1 <= k <= |tables| && i < |tables[0]|
    ensures |r.histograms| == size
    decreases k
  {
    if k == 1 then tables[0][i]
    else Merged(MergedEntry(tables, k - 1, i, size), tables[k - 1][i])
  }

  /** The first table after the merge loop has folded in tables 1 to k - 1. */
  function MergedPrefix(tables: seq<seq<ApiInfo>>, k: nat, size: nat): (r: seq<ApiInfo>)
    requires Uniform(tables, size) && 1 <= k <= |tables|
    ensures Shaped(r, |tables[0]|, size)
    ensures forall i :: 0 <= i < |r| ==> r[i] == MergedEntry(tables, k, i, size)
  {
    seq(|tables[0]|, i requires 0 <= i < |tables[0]| => MergedEntry(tables, k, i, size))
  }

  /** A table whose every record is the merged one is the merged table. */
  lemma MergedPrefixIs(table: seq<ApiInfo>, tables: seq<seq<ApiInfo>>, k: nat, size: nat)
    requires Uniform(tables, size) && 1 <= k <= |tables| && |table| == |tables[0]|
    requires forall i :: 0 <= i < |table| ==> table[i] == MergedEntry(tables, k, i, size)
    ensures table == MergedPrefix(tables, k, size)
  {
  }

  /** The exits of API `i` recorded in tables 1 to k - 1, unwrapped. */
  function Exits(tables: seq<seq<ApiInfo>>, k: nat, i: nat): int
    requires k <= |tables| && forall m :: 0 <= m < |tables| ==> i < |tables[m]|
    decreases k
  {
    if k <= 1 then 0 else Exits(tables, k - 1, i) + tables[k - 1][i].counter
  }

  /** The entries of API `i` in those of tables 1 to k - 1 where it recorded
      an exit, unwrapped. */
  function ExitedEntries(tables: seq<seq<ApiInfo>>, k: nat, i: nat): int
    requires k <= |tables| && forall m :: 0 <= m < |tables| ==> i < |tables[m]|
    decreases k
  {
    if k <= 1 then 0
    else
      var api := tables[k - 1][i];
      ExitedEntries(tables, k - 1, i) + (if api.counter > 0 then api.entries else 0)
  }

  /** The sum_duration of every record of tables 0 to k - 1, unwrapped. */
  function SumTables(tables: seq<seq<ApiInfo>>, k: nat): int
    requires k <= |tables|
    decreases k
  {
    if k == 0 then 0 else SumTables(tables, k - 1) + TableSum(tables[k - 1], |tables[k - 1]|)
  }

  /** The sum of the first k tick counts, unwrapped. */
  function SumTicks(ds: seq<u64>, k: nat): int
    requires k <= |ds|
    decreases k
  {
    if k == 0 then 0 else SumTicks(ds, k - 1) + ds[k - 1]
  }

  /** `p` after adding the sum_duration of the first n records of `table` in
      order, wrapping. */
  function AddSums(p: u64, table: seq<ApiInfo>, n: nat): u64
    requires n <= |table|
  {
    if n == 0 then p else Add64(AddSums(p, table, n - 1), table[n - 1].sumDuration)
  }

  /** `p` after adding the sums of tables 0 to k - 1 in order, wrapping. */
  function AddTables(p: u64, tables: seq<seq<ApiInfo>>, k: nat): u64
    requires k <= |tables|
    decreases k
  {
    if k == 0 then p else AddSums(AddTables(p, tables, k - 1), tables[k - 1], |tables[k - 1]|)
  }

  /** `p` after adding the first k tick counts in order, wrapping. */
  function AddTicks(p: u64, ds: seq<u64>, k: nat): u64
    requires k <= |ds|
    decreases k
  {
    if k == 0 then p else Add64(AddTicks(p, ds, k - 1), ds[k - 1])
  }

  /** Adding the sums one by one with wrap-around is adding their total modulo 2^64. */
  lemma {:induction false} AddSumsModulo(p: u64, table: seq<ApiInfo>, n: nat)
    requires n <= |table|
    ensures AddSums(p, table, n) == (p + TableSum(table, n)) % TWO_64
  {
    if n == 0 {
      SmallMod64(p);
    } else {
      AddSumsModulo(p, table, n - 1);
      WrapsModulo(AddSums(p, table, n - 1), table[n - 1].sumDuration, 0, 0);
      AddMod64(p + TableSum(table, n - 1), table[n - 1].sumDuration);
    }
  }

  /** The time spent in the PAL grows by the sum of sum_duration over every
      table, modulo 2^64. */
  lemma {:induction false} AddTablesModulo(p: u64, tables: seq<seq<ApiInfo>>, k: nat)
    requires k <= |tables|
    ensures AddTables(p, tables, k) == (p + SumTables(tables, k)) % TWO_64
    decreases k
  {
    if k == 0 {
      SmallMod64(p);
    } else {
      AddTablesModulo(p, tables, k - 1);
      AddSumsModulo(AddTables(p, tables, k - 1), tables[k - 1], |tables[k - 1]|);
      AddMod64(p + SumTables(tables, k - 1), TableSum(tables[k - 1], |tables[k - 1]|));
    }
  }

  /** The program's thread time grows by the sum of the thread times, modulo 2^64. */
  lemma {:induction false} AddTicksModulo(p: u64, ds: seq<u64>, k: nat)
    requires k <= |ds|
    ensures AddTicks(p, ds, k) == (p + SumTicks(ds, k)) % TWO_64
    decreases k
  {
    if k == 0 {
      SmallMod64(p);
    } else {
      AddTicksModulo(p, ds, k - 1);
      WrapsModulo(AddTicks(p, ds, k - 1), ds[k - 1], 0, 0);
      AddMod64(p + SumTicks(ds, k - 1), ds[k - 1]);
    }
  }

  /** The merged record counts every exit of every thread, modulo 2^64. */
  lemma {:induction false} MergedEntryCounter(tables: seq<seq<ApiInfo>>, k: nat, size: nat, i: nat)
    requires Uniform(tables, size) && 1 <= k <= |tables| && i < |tables[0]|
    ensures MergedEntry(tables, k, i, size).counter == (tables[0][i].counter + Exits(tables, k, i)) % TWO_64
    decreases k
  {
    if k == 1 {
      SmallMod64(tables[0][i].counter);
    } else {
      MergedEntryCounter(tables, k - 1, size, i);
      var before := MergedEntry(tables, k - 1, i, size);
      var source := tables[k - 1][i];
      assert MergedEntry(tables, k, i, size).counter == if source.counter == 0 then before.counter else Add64(before.counter, source.counter);
      WrapsModulo(before.counter, source.counter, 0, 0);
      AddMod64(tables[0][i].counter + Exits(tables, k - 1, i), source.counter);
    }
  }

  /** The merged record counts the entries of the first thread and of every
      other thread that recorded an exit of the API, modulo 2^64: entries of a
      thread that never saw the API return are dropped. */
  lemma {:induction false} MergedEntryEntries(tables: seq<seq<ApiInfo>>, k: nat, size: nat, i: nat)
    requires Uniform(tables, size) && 1 <= k <= |tables| && i < |tables[0]|
    ensures MergedEntry(tables, k, i, size).entries == (tables[0][i].entries + ExitedEntries(tables, k, i)) % TWO_64
    decreases k
  {
    if k == 1 {
      SmallMod64(tables[0][i].entries);
    } else {
      MergedEntryEntries(tables, k - 1, size, i);
      var before := MergedEntry(tables, k - 1, i, size);
      var source := tables[k - 1][i];
      assert MergedEntry(tables, k, i, size).entries == if source.counter == 0 then before.entries else Add64(before.entries, source.entries);
      WrapsModulo(before.entries, source.entries, 0, 0);
      AddMod64(tables[0][i].entries + ExitedEntries(tables, k - 1, i), source.entries);
    }
  }

  /** Folding tables of consistent records gives consistent records. */
  lemma {:induction false} MergedEntryConsistent(tables: seq<seq<ApiInfo>>, k: nat, size: nat)
    requires Uniform(tables, size) && 1 <= k <= |tables|
    requires forall m, i :: 0 <= m < |tables| && 0 <= i < |tables[m]| ==> Consistent(tables[m][i])
    ensures forall i :: 0 <= i < |tables[0]| ==> Consistent(MergedEntry(tables, k, i, size))
    decreases k
  {
    if k > 1 {
      MergedEntryConsistent(tables, k - 1, size);
      forall i | 0 <= i < |tables[0]|
        ensures Consistent(MergedEntry(tables, k, i, size))
      {
        MergedConsistent(MergedEntry(tables, k - 1, i, size), tables[k - 1][i]);
      }
    }
  }

  /** pal_perf_thread_info: what one thread records. Its log buffer and
      thread id are not modelled. */
  class ThreadInfo {
    const apiTable: array<ApiInfo>
    var profileEnabled: bool
    var startTicks: u64
    var totalDuration: u64

    /** The record as PERFAllocThreadInfo fills it in. */
    constructor (apiTable: array<ApiInfo>)
      ensures this.apiTable == apiTable
      ensures !profileEnabled && startTicks == 0 && totalDuration == 0
    {
      this.apiTable := apiTable;
      profileEnabled := false;
      startTicks := 0;
      totalDuration := 0;
    }
  }

  /** The contents of the tables of `threads`. */
  ghost function Tables(threads: seq<ThreadInfo>): (r: seq<seq<ApiInfo>>)
    reads set k | 0 <= k < |threads| :: threads[k].apiTable
    ensures |r| == |threads|
    ensures forall k :: 0 <= k < |threads| ==> r[k] == threads[k].apiTable[..]
    decreases |threads|
  {
    if threads == [] then [] else Tables(threads[..|threads| - 1]) + [threads[|threads| - 1].apiTable[..]]
  }

  /** The total_duration of every thread of `threads`. */
  ghost function Totals(threads: seq<ThreadInfo>): (r: seq<u64>)
    reads set k | 0 <= k < |threads| :: threads[k]
    ensures |r| == |threads|
    ensures forall k :: 0 <= k < |threads| ==> r[k] == threads[k].totalDuration
    decreases |threads|
  {
    if threads == [] then [] else Totals(threads[..|threads| - 1]) + [threads[|threads| - 1].totalDuration]
  }

  /** The start_ticks of every thread of `threads`. */
  ghost function Starts(threads: seq<ThreadInfo>): (r: seq<u64>)
    reads set k | 0 <= k < |threads| :: threads[k]
    ensures |r| == |threads|
    ensures forall k :: 0 <= k < |threads| ==> r[k] == threads[k].startTicks
    decreases |threads|
  {
    if threads == [] then [] else Starts(threads[..|threads| - 1]) + [threads[|threads| - 1].startTicks]
  }

  /** The tick counters of program_info. */
  class ProgramInfo {
    var startTicks: u64
    var elapsedTime: u64
    var totalDuration: u64
    var palDuration: u64

    constructor ()
      ensures startTicks == 0 && elapsedTime == 0 && totalDuration == 0 && palDuration == 0
    {
      startTicks := 0;
      elapsedTime := 0;
      totalDuration := 0;
      palDuration := 0;
    }

    function ProcessClock(): Clock
      reads this
    {
      Clock(startTicks, elapsedTime)
    }
  }

  /** The tracer's global state. */
  class PerfTracer {
    /** PAL_API_NUMBER */
    const apiCount: nat
    var perfEnabled: bool            // pal_perf_enabled
    var profileOn: bool              // pal_profile_on
    /** The bytes of pal_function_map; `hasFunctionMap` says the map was allocated. */
    const functionMap: array<bool>
    var hasFunctionMap: bool
    var summaryOnly: bool
    var nestedTracing: bool
    var reportOnlyCalledApis: bool
    var waitForStartup: bool
    var histogramSize: u32           // pal_perf_histogram_size
    var histogramStep: u32           // pal_perf_histogram_step
    const program: ProgramInfo
    /** process_pal_thread_list, the most recently registered thread first. */
    var threads: seq<ThreadInfo>

    /** Every registered table has a record per API, each with a histogram of
        the configured size; no two threads share a table; the step is positive. */
    ghost predicate Valid()
      reads this, set k | 0 <= k < |threads| :: threads[k].apiTable
    {
      functionMap.Length == apiCount && histogramStep > 0 &&
      (forall k :: 0 <= k < |threads| ==>
        threads[k].apiTable.Length == apiCount &&
        Shaped(threads[k].apiTable[..], apiCount, histogramSize)) &&
      (forall k, l :: 0 <= k < l < |threads| ==> threads[k].apiTable != threads[l].apiTable)
    }

    /** The tracer before PERFInitialize: the initial values of the globals. */
    constructor (apiCount: nat)
      ensures this.apiCount == apiCount && fresh(functionMap) && fresh(program)
      ensures !perfEnabled && !profileOn && !hasFunctionMap
      ensures !summaryOnly && !nestedTracing && !reportOnlyCalledApis && !waitForStartup
      ensures histogramSize == 0 && histogramStep == 100
      ensures program.ProcessClock() == Clock(0, 0) && program.totalDuration == 0 && program.palDuration == 0
      ensures threads == []
      ensures Valid()
    {
      this.apiCount := apiCount;
      perfEnabled, profileOn := false, false;
      functionMap := new bool[apiCount];
      hasFunctionMap := false;
      summaryOnly, nestedTracing, reportOnlyCalledApis, waitForStartup := false, false, false, false;
      histogramSize, histogramStep := 0, 100;
      program := new ProgramInfo();
      threads := [];
    }

    /** The test PERF_ENTRY and PERF_EXIT start with: tracing is on, the map
        exists and process profiling is on. */
    predicate Tracing()
      reads this
      ensures Tracing() ==> perfEnabled && hasFunctionMap && profileOn
      ensures !perfEnabled || !hasFunctionMap || !profileOn ==> !Tracing()
    {
      perfEnabled && hasFunctionMap && profileOn
    }

    /** Calls of API `id` are traced. */
    predicate Traced(id: nat)
      requires id < functionMap.Length
      reads this, functionMap
      ensures Traced(id) ==> Tracing() && functionMap[id]
      ensures !functionMap[id] ==> !Traced(id)
    {
      Tracing() && functionMap[id]
    }

    /** The switches and histogram settings PERFReadSetting sets. */
    function Configuration(): (bool, bool, bool, bool, u32, u32)
      reads this
    {
      (summaryOnly, nestedTracing, reportOnlyCalledApis, waitForStartup, histogramSize, histogramStep)
    }

    /** The settings and map PERFReadSetting derives from `env`, starting from
        the histogram size and step `size0` and `step0`. */
    predicate Configured(env: Environment, size0: u32, step0: u32)
      reads this, functionMap
    {
      summaryOnly == env.summaryOnly && nestedTracing == env.nestedTracing &&
      reportOnlyCalledApis == env.reportOnlyCalledApis && waitForStartup == env.waitForStartup &&
      histogramSize == PositiveSetting(size0, env.histogramSize) &&
      histogramStep == HistogramStep(step0, env.histogramStep) &&
      functionMap[..] == TracedMap(functionMap.Length, env.tracedApis)
    }

    /** PERFInitialize. `tracing` says PAL_PERF_TRACING is set and not empty;
        `programInfoOk` is the outcome of the command-line conversions of
        PERFInitProgramInfo, `tlsKeyOk` that of pthread_key_create and
        `mapAllocated` that of the malloc of the map. The result is true when
        tracing is off, or when everything was set up (even if the
        traced-APIs file could not be read). */
    method Initialize(tracing: bool, programInfoOk: bool, tlsKeyOk: bool, mapAllocated: bool,
                      env: Environment) returns (ok: bool)
      requires Valid() && threads == []
      modifies this, functionMap, program
      ensures Valid() && threads == []
      ensures perfEnabled == tracing
      ensures ok == (!tracing || (programInfoOk && tlsKeyOk && mapAllocated))
      ensures !(tracing && programInfoOk) ==> profileOn == old(profileOn) && unchanged(program)
      ensures tracing && programInfoOk ==>
        !profileOn && program.ProcessClock() == Clock(0, 0) && program.totalDuration == 0 && program.palDuration == 0
      ensures hasFunctionMap == (if tracing && programInfoOk && tlsKeyOk then mapAllocated else old(hasFunctionMap))
      ensures if tracing && ok then Configured(env, old(histogramSize), old(histogramStep))
              else Configuration() == old(Configuration()) && functionMap[..] == old(functionMap[..])
    {
      if !tracing {
        perfEnabled := false;
        return true;
      }
      perfEnabled := true;
      if !programInfoOk {
        return false;
      }
      program.startTicks, program.elapsedTime := 0, 0;
      program.totalDuration, program.palDuration := 0, 0;
      profileOn := false;
      if !tlsKeyOk {
        return false;
      }
      if !mapAllocated {
        hasFunctionMap := false;
        return false;
      }
      hasFunctionMap := true;
      var _ := ReadSetting(env);
      ok := true;
    }

    /** The switches, the histogram settings and the traced-APIs map of
        PERFReadSetting. The result is true exactly when the traced-APIs file
        was opened. */
    method ReadSetting(env: Environment) returns (ok: bool)
      requires Valid() && threads == []
      modifies this`summaryOnly, this`nestedTracing, this`reportOnlyCalledApis, this`waitForStartup,
               this`histogramSize, this`histogramStep, functionMap
      ensures Valid()
      ensures Configured(env, old(histogramSize), old(histogramStep))
      ensures ok == env.tracedApis.Opened?
    {
      summaryOnly := env.summaryOnly;
      nestedTracing := env.nestedTracing;
      reportOnlyCalledApis := env.reportOnlyCalledApis;
      waitForStartup := env.waitForStartup;
      histogramSize := PositiveSetting(histogramSize, env.histogramSize);
      histogramStep := HistogramStep(histogramStep, env.histogramStep);
      match env.tracedApis
      case Opened(lines) =>
        MarkTracedApis(lines);
        ok := true;
      case _ =>
        FillMap(true);
        ok := false;
    }

    /** The traced-APIs file loop of PERFReadSetting over the lines read:
        clear the map, then mark the API each entry names. */
    method MarkTracedApis(lines: seq<InputLine>)
      modifies functionMap
      ensures functionMap[..] == MarkedMap(functionMap.Length, lines)
    {
      FillMap(false);
      for k := 0 to |lines|
        invariant functionMap[..] == MarkedMap(functionMap.Length, lines[..k])
      {
        assert lines[..k + 1][..k] == lines[..k];
        match lines[k]
        case Entry(_, index) =>
          if index as nat >= functionMap.Length {
          } else if functionMap[index] {
          } else {
            functionMap[index] := true;
          }
        case _ =>
      }
      assert lines[..|lines|] == lines;
    }

    /** `memset(pal_function_map, value, PAL_API_NUMBER)` */
    method FillMap(value: bool)
      modifies functionMap
      ensures functionMap[..] == seq(functionMap.Length, _ => value)
    {
      for i := 0 to functionMap.Length
        invariant forall j :: 0 <= j < i ==> functionMap[j] == value
      {
        functionMap[i] := value;
      }
    }

    /** PERFAllocThreadInfo: when tracing is on, register a new record for
        the calling thread at the head of the list, its table filled by the
        init loop. Returns the record the thread-local slot then holds. */
    method AllocThreadInfo() returns (info: ThreadInfo?)
      requires Valid()
      modifies this`threads
      ensures Valid()
      ensures !perfEnabled ==> info == null && threads == old(threads)
      ensures perfEnabled ==>
        info != null && fresh(info) && fresh(info.apiTable) && threads == [info] + old(threads) &&
        info.apiTable.Length == apiCount &&
        (forall k :: 0 <= k < apiCount ==> info.apiTable[k] == Fresh(histogramSize)) &&
        !info.profileEnabled && info.startTicks == 0 && info.totalDuration == 0
    {
      if !perfEnabled {
        return null;
      }
      var table := new ApiInfo[apiCount];
      for i := 0 to apiCount
        invariant unchanged(this)
        invariant forall k :: 0 <= k < i ==> table[k] == Fresh(histogramSize)
      {
        table[i] := ApiInfo(0, 0, U64_MAX, 0, 0, seq(histogramSize, _ => 0));
      }
      info := new ThreadInfo(table);
      threads := [info] + threads;
    }

    /** PERFLogFunctionEntry of API `id` on the thread whose record is `local`
        (null when it has none), given the start tick the caller holds and the
        tick `now`; returns the caller's new start tick. A traced call on a
        thread whose guard is up counts one entry, lowers the guard (raised
        again at once under nested tracing) and starts timing. Anything else
        changes nothing. */
    method LogFunctionEntry(id: nat, local: ThreadInfo?, startTick: u64, now: u64) returns (tick: u64)
      requires Valid() && id < apiCount
      requires local != null ==> local in threads
      modifies if local != null then {local as object, local.apiTable} else {}
      ensures Valid()
      ensures local != null ==> local.startTicks == old(local.startTicks) && local.totalDuration == old(local.totalDuration)
      ensures if Traced(id) && local != null && old(local.profileEnabled) then
          local.apiTable[..] == old(local.apiTable[..])[id := Entered(old(local.apiTable[id]))] &&
          local.profileEnabled == nestedTracing && tick == now
        else
          (local != null ==> local.apiTable[..] == old(local.apiTable[..]) &&
                             local.profileEnabled == old(local.profileEnabled)) &&
          tick == startTick
    {
      if !Tracing() || !functionMap[id] || local == null || !local.profileEnabled {
        return startTick;
      }
      local.profileEnabled := false;
      var table := local.apiTable;
      table[id] := table[id].(entries := Add64(table[id].entries, 1));
      if nestedTracing {
        local.profileEnabled := true;
      }
      tick := now;
    }

    /** PERFLogFunctionExit of API `id`: when the caller holds a start tick, a
        traced call on a thread with a record records the ticks since then,
        clears the start tick and raises the thread's guard. Anything else
        changes nothing. */
    method LogFunctionExit(id: nat, local: ThreadInfo?, startTick: u64, now: u64) returns (tick: u64)
      requires Valid() && id < apiCount
      requires local != null ==> local in threads
      modifies if local != null then {local as object, local.apiTable} else {}
      ensures Valid()
      ensures local != null ==> local.startTicks == old(local.startTicks) && local.totalDuration == old(local.totalDuration)
      ensures if Traced(id) && startTick != 0 && local != null then
          local.apiTable[..] ==
            old(local.apiTable[..])[id := Recorded(old(local.apiTable[id]), Sub64(now, startTick), histogramStep)] &&
          local.profileEnabled && tick == 0
        else
          (local != null ==> local.apiTable[..] == old(local.apiTable[..]) &&
                             local.profileEnabled == old(local.profileEnabled)) &&
          tick == startTick
    {
      if !Tracing() || startTick == 0 {
        return startTick;
      }
      var duration := Sub64(now, startTick);
      if !functionMap[id] || local == null {
        return startTick;
      }
      UpdateApiInfo(local.apiTable, id, duration, histogramSize, histogramStep);
      tick := 0;
      local.profileEnabled := true;
    }

    /** PERFNoLatencyProfileEntry: a traced call on a thread with a record
        counts one entry, whatever the thread's guard; anything else changes
        nothing. */
    method NoLatencyProfileEntry(id: nat, local: ThreadInfo?)
      requires Valid() && id < apiCount
      requires local != null ==> local in threads
      modifies if local != null then {local.apiTable} else {}
      ensures Valid()
      ensures local != null ==>
        local.apiTable[..] ==
          if Traced(id) then old(local.apiTable[..])[id := Entered(old(local.apiTable[id]))]
          else old(local.apiTable[..])
    {
      if !Tracing() || !functionMap[id] || local == null {
        return;
      }
      var table := local.apiTable;
      table[id] := table[id].(entries := Add64(table[id].entries, 1));
    }

    /** A thread-profile switch applies to the thread when tracing is on, the
        thread has a record, and the call is external or nested tracing is on. */
    predicate Switches(isInternal: bool, local: ThreadInfo?)
      reads this
      ensures Switches(isInternal, local) ==> perfEnabled && local != null
      ensures perfEnabled && local != null && !isInternal ==> Switches(isInternal, local)
      ensures isInternal ==> (Switches(isInternal, local) <==> perfEnabled && local != null && nestedTracing)
    {
      perfEnabled && local != null && (!isInternal || nestedTracing)
    }

    /** PERFEnableThreadProfile: raise the thread's guard and restart its clock. */
    method EnableThreadProfile(isInternal: bool, local: ThreadInfo?, now: u64)
      modifies if local != null then {local} else {}
      ensures local != null ==> local.totalDuration == old(local.totalDuration)
      ensures Switches(isInternal, local) ==> local.profileEnabled && local.startTicks == now
      ensures !Switches(isInternal, local) && local != null ==>
        local.profileEnabled == old(local.profileEnabled) && local.startTicks == old(local.startTicks)
    {
      if !perfEnabled {
        return;
      }
      if local != null && (!isInternal || nestedTracing) {
        local.profileEnabled := true;
        local.startTicks := now;
      }
    }

    /** PERFDisableThreadProfile: lower the thread's guard and set its total to
        the ticks since its clock was started. */
    method DisableThreadProfile(isInternal: bool, local: ThreadInfo?, now: u64)
      modifies if local != null then {local} else {}
      ensures local != null ==> local.startTicks == old(local.startTicks)
      ensures Switches(isInternal, local) ==>
        !local.profileEnabled && local.totalDuration == Sub64(now, local.startTicks)
      ensures !Switches(isInternal, local) && local != null ==>
        local.profileEnabled == old(local.profileEnabled) && local.totalDuration == old(local.totalDuration)
    {
      if !perfEnabled {
        return;
      }
      if local != null && (!isInternal || nestedTracing) {
        local.profileEnabled := false;
        local.totalDuration := Sub64(now, local.startTicks);
      }
    }

    /** PERFEnableProcessProfile: unless tracing is off or start-up is awaited,
        turn process profiling on and start the process clock. */
    method EnableProcessProfile(now: u64)
      modifies this`profileOn, program`startTicks
      ensures if old(perfEnabled && !waitForStartup) then profileOn && program.startTicks == now
              else profileOn == old(profileOn) && program.startTicks == old(program.startTicks)
    {
      if !perfEnabled || waitForStartup {
        return;
      }
      profileOn := true;
      program.startTicks := now;
    }

    /** PERFDisableProcessProfile: when tracing is on, turn process profiling
        off and stop the process clock. */
    method DisableProcessProfile(now: u64)
      modifies this`profileOn, program`startTicks, program`elapsedTime
      ensures if perfEnabled then !profileOn && program.ProcessClock() == Stopped(old(program.ProcessClock()), now)
              else profileOn == old(profileOn) && program.ProcessClock() == old(program.ProcessClock())
    {
      if !perfEnabled {
        return;
      }
      profileOn := false;
      if program.startTicks != 0 {
        program.elapsedTime := Add64(program.elapsedTime, Sub64(now, program.startTicks));
        program.startTicks := 0;
      }
    }

    /** PAL_EnableProcessProfile: stop waiting for start-up and turn process
        profiling on, even when tracing is off; the process clock starts only
        when tracing is on. */
    method PalEnableProcessProfile(now: u64)
      modifies this`waitForStartup, this`profileOn, program`startTicks
      ensures !waitForStartup && profileOn
      ensures program.startTicks == if perfEnabled then now else old(program.startTicks)
    {
      waitForStartup := false;
      profileOn := true;
      EnableProcessProfile(now);
    }

    /** PAL_DisableProcessProfile: turn process profiling off, and stop the
        process clock when tracing is on. */
    method PalDisableProcessProfile(now: u64)
      modifies this`profileOn, program`startTicks, program`elapsedTime
      ensures !profileOn
      ensures program.ProcessClock() == if perfEnabled then Stopped(old(program.ProcessClock()), now) else old(program.ProcessClock())
    {
      profileOn := false;
      DisableProcessProfile(now);
    }

    /** PERFUpdateProgramInfo at tick `now`: settle the thread's total, add it
        to the program's, and add every sum_duration of its table to the time
        spent in the PAL. */
    method UpdateProgramInfo(info: ThreadInfo?, now: u64)
      modifies program`totalDuration, program`palDuration, if info != null then {info} else {}
      ensures info == null ==> unchanged(program)
      ensures info != null ==>
        info.profileEnabled == old(info.profileEnabled) && info.startTicks == old(info.startTicks) &&
        info.totalDuration == ThreadTime(old(info.totalDuration), info.startTicks, now) &&
        program.totalDuration == Add64(old(program.totalDuration), info.totalDuration) &&
        program.palDuration == AddSums(old(program.palDuration), info.apiTable[..], info.apiTable.Length)
    {
      if info == null {
        return;
      }
      if info.totalDuration == 0 {
        info.totalDuration := Sub64(now, info.startTicks);
      }
      program.totalDuration := Add64(program.totalDuration, info.totalDuration);
      var table := info.apiTable;
      label Settled:
      for i := 0 to table.Length
        invariant unchanged@Settled(info) && program.totalDuration == old@Settled(program.totalDuration)
        invariant program.palDuration == AddSums(old(program.palDuration), table[..], i)
      {
        program.palDuration := Add64(program.palDuration, table[i].sumDuration);
      }
    }

    /** The merge of the `k`-th thread's table `source` into `table0`, which
        holds the merge of the first `k` tables of the list. */
    static method FoldTable(table0: array<ApiInfo>, source: array<ApiInfo>, size: u32,
                            ghost tables: seq<seq<ApiInfo>>, ghost k: nat)
      requires Uniform(tables, size) && 1 <= k < |tables| && table0 != source
      requires source[..] == tables[k] && table0.Length == |tables[0]|
      requires forall i :: 0 <= i < table0.Length ==> table0[i] == MergedEntry(tables, k, i, size)
      modifies table0
      ensures forall i :: 0 <= i < table0.Length ==> table0[i] == MergedEntry(tables, k + 1, i, size)
    {
      MergeTables(table0, source, size);
      assert forall i :: 0 <= i < table0.Length ==> table0[i] == table0[..][i];
    }

    /** One pass of the list walk of PERFlushAllLogs over the `k`-th thread of
        `list`, whose tables held `tables` on entry: fold its table into
        `table0`, which holds the merge of the first `k`, then settle its time,
        the `k`-th of `times`, into program_info, which has added the first `k`
        threads to the `pal` and `total` it started from. Returns `k + 1`. */
    method FoldThread(table0: array<ApiInfo>, list: seq<ThreadInfo>, clock: seq<u64>, size: u32,
                      ghost tables: seq<seq<ApiInfo>>, ghost times: seq<u64>, k: nat,
                      ghost pal: u64, ghost total: u64) returns (next: nat)
      requires |list| == |tables| == |clock| == |times| && Uniform(tables, size) && 1 <= k < |list|
      requires forall m, n :: 0 <= m < n < |list| ==> list[m] != list[n]
      requires table0 != list[k].apiTable && list[k].apiTable[..] == tables[k] && table0.Length == |tables[0]|
      requires forall i :: 0 <= i < table0.Length ==> table0[i] == MergedEntry(tables, k, i, size)
      requires forall m :: k <= m < |list| ==> times[m] == ThreadTime(list[m].totalDuration, list[m].startTicks, clock[m])
      requires program.palDuration == AddTables(pal, tables, k)
      requires program.totalDuration == AddTicks(total, times, k)
      modifies table0, list[k], program`totalDuration, program`palDuration
      ensures next == k + 1
      ensures forall i :: 0 <= i < table0.Length ==> table0[i] == MergedEntry(tables, next, i, size)
      ensures forall m :: next <= m < |list| ==> times[m] == ThreadTime(list[m].totalDuration, list[m].startTicks, clock[m])
      ensures program.palDuration == AddTables(pal, tables, next)
      ensures program.totalDuration == AddTicks(total, times, next)
    {
      var current := list[k];
      ghost var time := times[k];
      FoldTable(table0, current.apiTable, size, tables, k);
      label Merged:
      UpdateProgramInfo(current, clock[k]);
      assert unchanged@Merged(table0);
      assert current.totalDuration == time;
      assert forall m :: k < m < |list| ==> list[m] != current;
      next := k + 1;
    }

    /** The list walk of PERFlushAllLogs: settle the head thread, then fold
        every other thread's table into the head's table and settle that
        thread, in list order. `size` is pal_perf_histogram_size; `tables` are
        the tables' contents on entry and `times` what each thread adds to the
        program total. */
    method WalkThreads(list: seq<ThreadInfo>, clock: seq<u64>, size: u32,
                       ghost tables: seq<seq<ApiInfo>>, ghost times: seq<u64>)
      requires |list| == |tables| == |clock| == |times| && Uniform(tables, size)
      requires forall m :: 0 <= m < |list| ==> list[m].apiTable[..] == tables[m]
      requires forall m :: 0 <= m < |list| ==>
        times[m] == ThreadTime(list[m].totalDuration, list[m].startTicks, clock[m])
      requires forall m, n :: 0 <= m < n < |list| ==> list[m].apiTable != list[n].apiTable
      modifies list, list[0].apiTable, program`totalDuration, program`palDuration
      ensures list[0].apiTable[..] == MergedPrefix(tables, |list|, size)
      ensures program.palDuration == AddTables(old(program.palDuration), tables, |list|)
      ensures program.totalDuration == AddTicks(old(program.totalDuration), times, |list|)
    {
      ghost var pal, total := program.palDuration, program.totalDuration;
      var table0 := list[0].apiTable;
      UpdateProgramInfo(list[0], clock[0]);
      assert forall m, n :: 0 <= m < n < |list| ==> list[m] != list[n];
      var k := 1;
      while k < |list|
        invariant 1 <= k <= |list|
        invariant forall i :: 0 <= i < table0.Length ==> table0[i] == MergedEntry(tables, k, i, size)
        invariant forall m :: k <= m < |list| ==> times[m] == ThreadTime(list[m].totalDuration, list[m].startTicks, clock[m])
        invariant program.palDuration == AddTables(pal, tables, k)
        invariant program.totalDuration == AddTicks(total, times, k)
      {
        k := FoldThread(table0, list, clock, size, tables, times, k, pal, total);
      }
      assert k == |list|;
      MergedPrefixIs(table0[..], tables, |list|, size);
    }

    /** PERFlushAllLogs, with the tick each thread's clock reads when it is
        settled: fold every table into the head thread's table, add every
        thread's time and PAL time to the program's, write the counters of the
        merged table (`summaryOpens` and `histogramOpens` being the outcomes of
        the two fopen calls) and release the list. With no thread registered
        nothing happens. `tables` are the threads' tables before the flush and
        `times` what each thread adds to the program total. */
    method FlushAllLogs(clock: seq<u64>, summaryOpens: bool, histogramOpens: bool)
      returns (rows: seq<ReportRow>, histogramRows: seq<HistogramRow>,
               ghost tables: seq<seq<ApiInfo>>, ghost times: seq<u64>)
      requires Valid() && |clock| == |threads|
      modifies this`threads, program`totalDuration, program`palDuration
      modifies threads
      modifies if threads != [] then {threads[0].apiTable} else {}
      ensures Valid() && threads == []
      ensures tables == old(Tables(threads)) && |times| == |tables|
      ensures forall k :: 0 <= k < |old(threads)| ==>
        times[k] == ThreadTime(old(threads[k].totalDuration), old(threads[k].startTicks), clock[k])
      ensures tables == [] ==> rows == [] && histogramRows == [] && unchanged(program)
      ensures tables != [] ==> Uniform(tables, histogramSize)
      ensures tables != [] ==> old(threads)[0].apiTable[..] == MergedPrefix(tables, |tables|, histogramSize)
      ensures program.palDuration == AddTables(old(program.palDuration), tables, |tables|)
      ensures program.totalDuration == AddTicks(old(program.totalDuration), times, |times|)
      ensures tables != [] ==>
        rows == if summaryOpens then SummaryOf(old(threads)[0].apiTable[..], reportOnlyCalledApis) else []
      ensures tables != [] ==>
        histogramRows == if summaryOpens && histogramSize > 0 && histogramOpens
                         then HistogramsOf(old(threads)[0].apiTable[..]) else []
    {
      tables := Tables(threads);
      times := ThreadTimes(Totals(threads), Starts(threads), clock);
      if threads == [] {
        return [], [], tables, times;
      }
      var list := threads;
      WalkThreads(list, clock, histogramSize, tables, times);
      var status;
      status, rows, histogramRows := WriteCounters(list[0].apiTable, reportOnlyCalledApis, histogramSize,
                                                   summaryOpens, histogramOpens);
      threads := [];
    }
  }
}
