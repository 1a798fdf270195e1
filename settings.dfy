/** The settings PERFReadSetting derives from the environment: the map of
    traced APIs built from the traced-APIs file, and the histogram size and
    step. Environment lookups, path checks and line parsing happen before this
    model starts: it receives their outcome. */
module Settings {
  import opened Words
  import opened Wrappers

  /** One line of the traced-APIs file as PERFReadSetting classifies it. */
  datatype InputLine =
    | Blank                            // strlen(line) == 0
    | Comment                          // the line holds a '#'
    | Entry(name: string, index: u32)  // what sscanf_s read with "%s %u"

  /** What became of the traced-APIs file. */
  datatype TracedApisFile =
    | NoFile                         // no usable file name was configured or found
    | Unopenable                     // PAL_fopen(name, "r+") returned NULL
    | Opened(lines: seq<InputLine>)  // the lines PAL_fgets returned, in order

  /** `line` names API `i`. */
  predicate Names(line: InputLine, i: nat) {
    line.Entry? && line.index as nat == i
  }

  /** The map after one more line of the file: an out-of-range index is
      ignored, an index already marked is a conflict and stays marked. */
  function MarkLine(m: seq<bool>, line: InputLine): (r: seq<bool>)
    ensures |r| == |m|
    ensures forall i :: 0 <= i < |m| ==> r[i] == (m[i] || Names(line, i))
  {
    match line
    case Entry(_, index) =>
      if index as nat >= |m| then m
      else if m[index] then m
      else m[index := true]
    case _ => m
  }

  /** pal_function_map after `memset(map, 0, n)` and the loop over `lines`. */
  function MarkedMap(n: nat, lines: seq<InputLine>): (m: seq<bool>)
    ensures |m| == n
    decreases |lines|
  {
    if lines == [] then seq(n, _ => false)
    else MarkLine(MarkedMap(n, lines[..|lines| - 1]), lines[|lines| - 1])
  }

  /** The traced-APIs map: every API when the file is missing or cannot be
      opened, otherwise the ones the file names. */
  function TracedMap(n: nat, file: TracedApisFile): (m: seq<bool>)
    ensures |m| == n
  {
    match file
    case Opened(lines) => MarkedMap(n, lines)
    case _ => seq(n, _ => true)
  }

  /** After reading the file, API `i` is traced exactly when a line that is
      neither blank nor a comment names it. */
  lemma {:induction false} MarkedMapExactly(n: nat, lines: seq<InputLine>, i: nat)
    requires i < n
    ensures MarkedMap(n, lines)[i] <==> exists k :: 0 <= k < |lines| && Names(lines[k], i)
    decreases |lines|
  {
    if lines != [] {
      var last := |lines| - 1;
      var prefix := lines[..last];
      MarkedMapExactly(n, prefix, i);
      assert forall k :: 0 <= k < last ==> prefix[k] == lines[k];
      if MarkedMap(n, lines)[i] && !MarkedMap(n, prefix)[i] {
        assert Names(lines[last], i);
      }
      if !Names(lines[last], i) && (exists k :: 0 <= k < |lines| && Names(lines[k], i)) {
        var k :| 0 <= k < |lines| && Names(lines[k], i);
        assert k < last && Names(prefix[k], i);
      }
    }
  }

  /** Every API is traced unless the file was opened; then exactly the named ones. */
  lemma TracedMapExactly(n: nat, file: TracedApisFile, i: nat)
    requires i < n
    ensures TracedMap(n, file)[i] <==>
      (!file.Opened? || exists k :: 0 <= k < |file.lines| && Names(file.lines[k], i))
  {
    if file.Opened? {
      MarkedMapExactly(n, file.lines, i);
    }
  }

  /** A DWORD setting as PERFReadSetting reads it: `setting` is strtol's value
      when the variable is set and not empty, a positive value replaces the
      current one after the `(DWORD)` cast, any other value is ignored. This
      is how PAL_PERF_HISTOGRAM_SIZE is read, and how PAL_PERF_HISTOGRAM_STEP
      is read in the source. */
  function PositiveSetting(current: u32, setting: Option<i64>): (r: u32)
    ensures (setting.None? || setting.value <= 0) ==> r == current
    ensures setting.Some? && 0 < setting.value < TWO_32 ==> r == setting.value
    ensures setting.Some? && setting.value > 0 ==> r == setting.value % TWO_32
  {
    if setting.Some? && setting.value > 0 then ToDword(setting.value) else current
  }

  /** PAL_PERF_HISTOGRAM_STEP=4294967296 is positive but casts to a step of 0,
      which PERFUpdateApiInfo then divides by. */
  lemma StepSettingCanBeZero()
    ensures PositiveSetting(100, Some(TWO_32)) == 0
  {
  }

  /** The histogram step, accepting a setting only when its DWORD value is
      positive: a positive step stays positive, and the step agrees with the
      cast value whenever that is positive. */
  function HistogramStep(current: u32, setting: Option<i64>): (step: u32)
    ensures current > 0 ==> step > 0
    ensures PositiveSetting(current, setting) > 0 ==> step == PositiveSetting(current, setting)
    ensures step == current || step == PositiveSetting(current, setting)
    ensures setting.Some? && 0 < setting.value < TWO_32 ==> step == setting.value
  {
    var s := PositiveSetting(current, setting);
    if s > 0 then s else current
  }

  /** PAL_PERF_HISTOGRAM_STEP=4294967296 leaves the step as it was, and
      PAL_PERF_HISTOGRAM_STEP=4294967301 gives the step 5, as the cast does. */
  lemma HistogramStepOnWideSettings()
    ensures HistogramStep(100, Some(TWO_32)) == 100
    ensures HistogramStep(100, Some(TWO_32 + 5)) == 5
  {
  }
}
