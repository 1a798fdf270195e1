/** Per-API statistics of the PAL perf tracer: the record each thread keeps for
    every PAL API, how one exit updates it (PERFUpdateApiInfo), how a thread's
    table is folded into another (PERFlushAllLogs), and the reference
    definitions those operations are proved against. */
module ApiStats {
  import opened Words

  /** pal_perf_api_info without sum_of_square_duration. The histogram buffer of
      the record is the sequence `histograms`, one DWORD per bucket. */
  datatype ApiInfo = ApiInfo(
    entries: u64,       // PERF_ENTRY calls
    counter: u64,       // PERF_EXIT calls that recorded a duration
    minDuration: u64,
    maxDuration: u64,
    sumDuration: u64,
    histograms: seq<u32>)

  /** A record as the init loop of PERFAllocThreadInfo leaves it. */
  function Fresh(histogramSize: nat): (r: ApiInfo)
    ensures r.entries == 0 && r.counter == 0 && r.sumDuration == 0
    ensures r.minDuration == U64_MAX && r.maxDuration == 0
    ensures |r.histograms| == histogramSize && forall b :: 0 <= b < histogramSize ==> r.histograms[b] == 0
  {
    ApiInfo(0, 0, U64_MAX, 0, 0, seq(histogramSize, _ => 0))
  }

  /** A table of `n` records whose histograms all have `size` buckets. */
  predicate Shaped(table: seq<ApiInfo>, n: nat, size: nat) {
    |table| == n && forall i :: 0 <= i < |table| ==> |table[i].histograms| == size
  }

  /** Once an API has recorded an exit, its minimum does not exceed its maximum. */
  predicate Consistent(api: ApiInfo) {
    api.counter > 0 ==> api.minDuration <= api.maxDuration
  }

  /** The quotient `x / d`, by repeated subtraction. Buckets are defined with
      it so that the definitions carry no nonlinear arithmetic. */
  function Quotient(x: nat, d: nat): nat
    requires d > 0
    decreases x
  {
    if x < d then 0 else 1 + Quotient(x - d, d)
  }

  /** `Quotient` is the integer division of the source, and it brackets `x`. */
  lemma {:induction false} QuotientIsDivision(x: nat, d: nat)
    requires d > 0
    ensures Quotient(x, d) * d <= x < (Quotient(x, d) + 1) * d
    ensures Quotient(x, d) == x / d
    decreases x
  {
    var q := Quotient(x, d);
    if x >= d {
      QuotientIsDivision(x - d, d);
      assert q * d == Quotient(x - d, d) * d + d;
    }
    DivisionUnique(x, d, q);
  }

  lemma DivisionUnique(x: nat, d: nat, q: nat)
    requires d > 0 && q * d <= x < (q + 1) * d
    ensures q == x / d
  {
    var p, r := x / d, x % d;
    assert x == p * d + r && 0 <= r < d;
    MulCancel(q, p + 1, d);
    MulCancel(p, q + 1, d);
  }

  lemma MulCancel(a: int, b: int, d: int)
    requires d > 0 && a * d < b * d
    ensures a < b
  {
  }

  /** The histogram bucket of a call lasting `duration` ticks: the quotient by
      the step, clamped to the last bucket. */
  function Bucket(duration: u64, step: u32, size: nat): (b: nat)
    requires step > 0 && size > 0
    ensures b < size
  {
    var q := Quotient(duration, step);
    if q >= size then size - 1 else q
  }

  /** Bucket `b` holds the durations in [b * step, (b + 1) * step), and the last
      bucket also holds every longer duration. */
  lemma BucketRange(duration: u64, step: u32, size: nat)
    requires step > 0 && size > 0
    ensures var b := Bucket(duration, step, size);
      && b * step <= duration
      && (b + 1 < size ==> duration < (b + 1) * step)
  {
    QuotientIsDivision(duration, step);
    var q := Quotient(duration, step);
    if q >= size {
      assert (size - 1) * step <= q * step;
    }
  }

  /** The bucket as PERFUpdateApiInfo computes it: the quotient is cast to a
      DWORD before it is clamped, so a quotient of 2^32 or more wraps around. */
  function BucketAsWritten(duration: u64, step: u32, size: nat): (b: nat)
    requires step > 0 && size > 0
    ensures b < size
    ensures Quotient(duration, step) < TWO_32 ==> b == Bucket(duration, step, size)
  {
    var q := ToDword(Quotient(duration, step));
    if q >= size then size - 1 else q
  }

  /** A call of 2^32 ticks counted in steps of one tick lands in bucket 0 of a
      ten-bucket histogram instead of the last bucket. */
  lemma BucketAsWrittenWraps()
    ensures BucketAsWritten(TWO_32, 1, 10) == 0
    ensures Bucket(TWO_32, 1, 10) == 9
  {
    QuotientIsDivision(TWO_32, 1);
  }

  /** The record after one exit that lasted `duration` ticks. */
  function Recorded(api: ApiInfo, duration: u64, step: u32): (r: ApiInfo)
    requires |api.histograms| > 0 ==> step > 0
    ensures r.entries == api.entries && |r.histograms| == |api.histograms|
    ensures r.minDuration <= duration <= r.maxDuration
    ensures r.minDuration <= api.minDuration && api.maxDuration <= r.maxDuration
    ensures (r.minDuration == api.minDuration || r.minDuration == duration)
    ensures (r.maxDuration == api.maxDuration || r.maxDuration == duration)
  {
    var h := api.histograms;
    api.(counter := Add64(api.counter, 1),
         minDuration := Min(api.minDuration, duration),
         maxDuration := Max(api.maxDuration, duration),
         sumDuration := Add64(api.sumDuration, duration),
         histograms :=
           if |h| > 0 then
             var b := Bucket(duration, step, |h|);
             h[b := Add32(h[b], 1)]
           else h)
  }

  /** One exit grows the counter by one and the sum by the duration, modulo
      2^64, and adds one, modulo 2^32, to the duration's bucket and to no
      other; without buckets the histogram is untouched. */
  lemma RecordedExactly(api: ApiInfo, duration: u64, step: u32)
    requires |api.histograms| > 0 ==> step > 0
    ensures var r := Recorded(api, duration, step);
      && r.counter == (api.counter + 1) % TWO_64
      && r.sumDuration == (api.sumDuration + duration) % TWO_64
      && r.entries == api.entries
      && (|api.histograms| == 0 ==> r.histograms == api.histograms)
      && (|api.histograms| > 0 ==> forall b :: 0 <= b < |api.histograms| ==>
            r.histograms[b] == if b == Bucket(duration, step, |api.histograms|)
                               then (api.histograms[b] + 1) % TWO_32 else api.histograms[b])
  {
    WrapsModulo(api.counter, 1, 0, 0);
    WrapsModulo(api.sumDuration, duration, 0, 0);
    if |api.histograms| > 0 {
      var b := Bucket(duration, step, |api.histograms|);
      WrapsModulo(0, 0, api.histograms[b], 1);
    }
  }

  /** The record after a PERF_ENTRY that is counted. */
  function Entered(api: ApiInfo): (r: ApiInfo)
    ensures r.entries == (api.entries + 1) % TWO_64
    ensures r.(entries := api.entries) == api
  {
    WrapsModulo(api.entries, 1, 0, 0);
    api.(entries := Add64(api.entries, 1))
  }

  /** The target record after folding in a source record (PERFlushAllLogs):
      a source that never recorded an exit is skipped. */
  function Merged(target: ApiInfo, source: ApiInfo): (r: ApiInfo)
    requires |target.histograms| == |source.histograms|
    ensures |r.histograms| == |target.histograms|
    ensures source.counter == 0 ==> r == target
    ensures r.minDuration <= target.minDuration && target.maxDuration <= r.maxDuration
    ensures source.counter > 0 ==> r.minDuration <= source.minDuration && source.maxDuration <= r.maxDuration
    ensures r.minDuration == target.minDuration || r.minDuration == source.minDuration
    ensures r.maxDuration == target.maxDuration || r.maxDuration == source.maxDuration
  {
    if source.counter == 0 then target
    else
      ApiInfo(
        Add64(target.entries, source.entries),
        Add64(target.counter, source.counter),
        Min(target.minDuration, source.minDuration),
        Max(target.maxDuration, source.maxDuration),
        Add64(target.sumDuration, source.sumDuration),
        seq(|target.histograms|, j requires 0 <= j < |target.histograms| =>
          Add32(target.histograms[j], source.histograms[j])))
  }

  /** Folding in a source record that recorded an exit adds its entries,
      exits and sum modulo 2^64 and its buckets modulo 2^32, bucket by bucket. */
  lemma MergedExactly(target: ApiInfo, source: ApiInfo)
    requires |target.histograms| == |source.histograms| && source.counter > 0
    ensures var r := Merged(target, source);
      && r.entries == (target.entries + source.entries) % TWO_64
      && r.counter == (target.counter + source.counter) % TWO_64
      && r.sumDuration == (target.sumDuration + source.sumDuration) % TWO_64
      && forall j :: 0 <= j < |target.histograms| ==>
           r.histograms[j] == (target.histograms[j] + source.histograms[j]) % TWO_32
  {
    WrapsModulo(target.entries, source.entries, 0, 0);
    WrapsModulo(target.counter, source.counter, 0, 0);
    WrapsModulo(target.sumDuration, source.sumDuration, 0, 0);
    forall j | 0 <= j < |target.histograms|
      ensures Add32(target.histograms[j], source.histograms[j]) == (target.histograms[j] + source.histograms[j]) % TWO_32
    {
      WrapsModulo(0, 0, target.histograms[j], source.histograms[j]);
    }
  }

  /** The target table after folding in one source table, API by API. */
  function MergedTable(target: seq<ApiInfo>, source: seq<ApiInfo>, size: nat): (r: seq<ApiInfo>)
    requires Shaped(target, |target|, size) && Shaped(source, |target|, size)
    ensures Shaped(r, |target|, size)
    ensures forall i :: 0 <= i < |r| ==> r[i] == Merged(target[i], source[i])
  {
    seq(|target|, i requires 0 <= i < |target| => Merged(target[i], source[i]))
  }

  /** The record after a sequence of exits, in order. */
  function Run(api: ApiInfo, durations: seq<u64>, step: u32): (r: ApiInfo)
    requires |api.histograms| > 0 ==> step > 0
    ensures r.entries == api.entries && |r.histograms| == |api.histograms|
    decreases |durations|
  {
    if durations == [] then api
    else
      var last := |durations| - 1;
      Recorded(Run(api, durations[..last], step), durations[last], step)
  }

  /** The plain (unbounded) sum of the durations. */
  function Total(durations: seq<u64>): int {
    if durations == [] then 0
    else Total(durations[..|durations| - 1]) + durations[|durations| - 1]
  }

  /** The number of durations that fall into bucket `b`. */
  function BucketCount(durations: seq<u64>, step: u32, size: nat, b: nat): nat
    requires step > 0 && size > 0
  {
    if durations == [] then 0
    else
      var last := |durations| - 1;
      BucketCount(durations[..last], step, size, b)
        + (if Bucket(durations[last], step, size) == b then 1 else 0)
  }

  /** The least of `m` and the durations. */
  function Least(m: u64, ds: seq<u64>): u64
    decreases |ds|
  {
    if ds == [] then m else Min(Least(m, ds[..|ds| - 1]), ds[|ds| - 1])
  }

  /** The greatest of `m` and the durations. */
  function Greatest(m: u64, ds: seq<u64>): u64
    decreases |ds|
  {
    if ds == [] then m else Max(Greatest(m, ds[..|ds| - 1]), ds[|ds| - 1])
  }

  /** The record after a sequence of exits, in closed form: the counter has
      grown by their number and the sum by their total, both modulo 2^64, the
      minimum and maximum take in every duration, and each bucket has grown
      by the number of durations that fall into it, modulo 2^32. */
  function Summary(api: ApiInfo, ds: seq<u64>, step: u32): ApiInfo
    requires |api.histograms| > 0 ==> step > 0
  {
    var h := api.histograms;
    api.(counter := (api.counter + |ds|) % TWO_64,
         minDuration := Least(api.minDuration, ds),
         maxDuration := Greatest(api.maxDuration, ds),
         sumDuration := (api.sumDuration + Total(ds)) % TWO_64,
         histograms := seq(|h|, b requires 0 <= b < |h| =>
           (h[b] + BucketCount(ds, step, |h|, b)) % TWO_32))
  }

  /** `Least` is the minimum: no larger than `m` or any duration, and one of them. */
  lemma {:induction false} LeastBounds(m: u64, ds: seq<u64>)
    ensures var l := Least(m, ds);
      && l <= m
      && (forall k :: 0 <= k < |ds| ==> l <= ds[k])
      && (l == m || exists k :: 0 <= k < |ds| && l == ds[k])
    decreases |ds|
  {
    if ds != [] {
      var last := |ds| - 1;
      var prefix := ds[..last];
      LeastBounds(m, prefix);
      assert forall k :: 0 <= k < last ==> prefix[k] == ds[k];
      if Least(m, ds) != m && Least(m, ds) != ds[last] {
        var k :| 0 <= k < |prefix| && Least(m, prefix) == prefix[k];
        assert Least(m, ds) == ds[k];
      }
    }
  }

  /** `Greatest` is the maximum: no smaller than `m` or any duration, and one of them. */
  lemma {:induction false} GreatestBounds(m: u64, ds: seq<u64>)
    ensures var g := Greatest(m, ds);
      && m <= g
      && (forall k :: 0 <= k < |ds| ==> ds[k] <= g)
      && (g == m || exists k :: 0 <= k < |ds| && g == ds[k])
    decreases |ds|
  {
    if ds != [] {
      var last := |ds| - 1;
      var prefix := ds[..last];
      GreatestBounds(m, prefix);
      assert forall k :: 0 <= k < last ==> prefix[k] == ds[k];
      if Greatest(m, ds) != m && Greatest(m, ds) != ds[last] {
        var k :| 0 <= k < |prefix| && Greatest(m, prefix) == prefix[k];
        assert Greatest(m, ds) == ds[k];
      }
    }
  }

  /** Starting from a larger minimum is taking the smaller one at the end. */
  lemma {:induction false} LeastFrom(m: u64, ds: seq<u64>)
    ensures Least(m, ds) == Min(m, Least(U64_MAX, ds))
    decreases |ds|
  {
    if ds != [] {
      LeastFrom(m, ds[..|ds| - 1]);
    }
  }

  lemma {:induction false} GreatestFrom(m: u64, ds: seq<u64>)
    ensures Greatest(m, ds) == Max(m, Greatest(0, ds))
    decreases |ds|
  {
    if ds != [] {
      GreatestFrom(m, ds[..|ds| - 1]);
    }
  }

  /** One more exit on top of the closed form is the closed form of the longer
      sequence. */
  lemma SummaryStep(api: ApiInfo, ds: seq<u64>, d: u64, step: u32)
    requires |api.histograms| > 0 ==> step > 0
    ensures Summary(api, ds + [d], step) == Recorded(Summary(api, ds, step), d, step)
  {
    var e := ds + [d];
    assert e[..|e| - 1] == ds && e[|e| - 1] == d;
    var s := Summary(api, ds, step);
    WrapsModulo(s.counter, 1, 0, 0);
    AddMod64(api.counter + |ds|, 1);
    WrapsModulo(s.sumDuration, d, 0, 0);
    AddMod64(api.sumDuration + Total(ds), d);
    var h := Summary(api, e, step).histograms;
    var g := Recorded(s, d, step).histograms;
    forall b | 0 <= b < |api.histograms|
      ensures h[b] == g[b]
    {
      SummaryStepBucket(api, ds, d, step, b);
    }
    assert h == g;
  }

  lemma SummaryStepBucket(api: ApiInfo, ds: seq<u64>, d: u64, step: u32, b: nat)
    requires |api.histograms| > 0 ==> step > 0
    requires b < |api.histograms|
    ensures Summary(api, ds + [d], step).histograms[b] == Recorded(Summary(api, ds, step), d, step).histograms[b]
  {
    var e := ds + [d];
    var size := |api.histograms|;
    assert e[..|e| - 1] == ds && e[|e| - 1] == d;
    var hit := if Bucket(d, step, size) == b then 1 else 0;
    assert BucketCount(e, step, size, b) == BucketCount(ds, step, size, b) + hit;
    var old_b := Summary(api, ds, step).histograms[b];
    WrapsModulo(0, 0, old_b, 1);
    AddMod32(api.histograms[b] + BucketCount(ds, step, size, b), hit);
  }

  /** Replaying exits one PERFUpdateApiInfo at a time gives the closed form. */
  lemma {:induction false} RunIsSummary(api: ApiInfo, ds: seq<u64>, step: u32)
    requires |api.histograms| > 0 ==> step > 0
    ensures Run(api, ds, step) == Summary(api, ds, step)
    decreases |ds|
  {
    if ds == [] {
      SmallMod64(api.counter);
      SmallMod64(api.sumDuration);
      assert Summary(api, ds, step).histograms == api.histograms;
    } else {
      var prefix := ds[..|ds| - 1];
      RunIsSummary(api, prefix, step);
      SummaryStep(api, prefix, ds[|ds| - 1], step);
      assert prefix + [ds[|ds| - 1]] == ds;
    }
  }

  /** Folding a secondary thread's record, started fresh and then updated by a
      non-empty sequence of exits, into a target record gives the closed form
      of those exits on the target; only the entry counts are added instead. */
  lemma MergedSummary(target: ApiInfo, entries: u64, ds: seq<u64>, step: u32)
    requires |target.histograms| > 0 ==> step > 0
    requires 0 < |ds| < TWO_64
    ensures Merged(target, Summary(Fresh(|target.histograms|).(entries := entries), ds, step))
         == Summary(target, ds, step).(entries := Add64(target.entries, entries))
  {
    var f := Fresh(|target.histograms|).(entries := entries);
    var s := Summary(f, ds, step);
    var r := Summary(target, ds, step);
    SmallMod64(|ds|);
    WrapsModulo(target.counter, s.counter, 0, 0);
    AddMod64(Total(ds), target.sumDuration);
    WrapsModulo(target.sumDuration, s.sumDuration, 0, 0);
    LeastFrom(target.minDuration, ds);
    GreatestFrom(target.maxDuration, ds);
    var m := Merged(target, s).histograms;
    forall j | 0 <= j < |target.histograms|
      ensures m[j] == r.histograms[j]
    {
      Add32Reduced(target.histograms[j], s.histograms[j], BucketCount(ds, step, |target.histograms|, j));
    }
    assert m == r.histograms;
  }

  /** The same for records updated one exit at a time: what PERFlushAllLogs
      computes from a secondary thread equals what the exits would have done on
      the first thread's record. */
  lemma MergeRun(target: ApiInfo, entries: u64, ds: seq<u64>, step: u32)
    requires |target.histograms| > 0 ==> step > 0
    requires 0 < |ds| < TWO_64
    ensures Merged(target, Run(Fresh(|target.histograms|).(entries := entries), ds, step))
         == Run(target, ds, step).(entries := Add64(target.entries, entries))
  {
    RunIsSummary(Fresh(|target.histograms|).(entries := entries), ds, step);
    RunIsSummary(target, ds, step);
    MergedSummary(target, entries, ds, step);
  }

  /** A source record that recorded no exit leaves the target as it was, even
      when the source counted entries (the no-latency APIs of PERFNoLatencyProfileEntry). */
  lemma MergeSkipsUnexited(target: ApiInfo, entries: u64)
    ensures Merged(target, Fresh(|target.histograms|).(entries := entries)) == target
  {
  }

  /** Updates and merges keep records consistent, and fresh records are. */
  lemma {:induction false} RunConsistent(api: ApiInfo, ds: seq<u64>, step: u32)
    requires |api.histograms| > 0 ==> step > 0
    requires Consistent(api)
    ensures Consistent(Run(api, ds, step))
    ensures ds != [] ==> Run(api, ds, step).minDuration <= Run(api, ds, step).maxDuration
  {
  }

  lemma MergedConsistent(target: ApiInfo, source: ApiInfo)
    requires |target.histograms| == |source.histograms|
    requires Consistent(target) && Consistent(source)
    ensures Consistent(Merged(target, source))
  {
  }

  /** The plain sum of the sum_duration fields of the first n records of a table. */
  function TableSum(table: seq<ApiInfo>, n: nat): int
    requires n <= |table|
  {
    if n == 0 then 0 else TableSum(table, n - 1) + table[n - 1].sumDuration
  }

  /** The tick count divided by the histogram step. */
  method Divide(duration: u64, step: u32) returns (q: nat)
    requires step > 0
    ensures q == Quotient(duration, step)
  {
    q := duration / step;
    QuotientIsDivision(duration, step);
  }

  /** PERFUpdateApiInfo: record one exit of API `id` in place. */
  method UpdateApiInfo(table: array<ApiInfo>, id: nat, duration: u64, histogramSize: u32, step: u32)
    requires id < table.Length && |table[id].histograms| == histogramSize
    requires histogramSize > 0 ==> step > 0
    modifies table
    ensures table[id] == Recorded(old(table[id]), duration, step)
    ensures forall k :: 0 <= k < table.Length && k != id ==> table[k] == old(table[k])
  {
    ghost var was := table[id];
    var api := table[id];
    api := api.(counter := Add64(api.counter, 1));
    if api.minDuration > duration {
      api := api.(minDuration := duration);
    }
    assert api == was.(counter := api.counter, minDuration := Min(was.minDuration, duration));
    if api.maxDuration < duration {
      api := api.(maxDuration := duration);
    }
    assert api == was.(counter := api.counter, minDuration := api.minDuration,
                       maxDuration := Max(was.maxDuration, duration));
    api := api.(sumDuration := Add64(api.sumDuration, duration));
    ghost var counted := api;
    if histogramSize > 0 {
      var iBucket: nat := Divide(duration, step);
      if iBucket >= histogramSize {
        iBucket := histogramSize - 1;
      }
      api := api.(histograms := api.histograms[iBucket := Add32(api.histograms[iBucket], 1)]);
    }
    assert api == counted.(histograms := Recorded(was, duration, step).histograms);
    table[id] := api;
  }

  /** The merge loop of PERFlushAllLogs: fold `table1` into `table0` record by
      record, histogram bucket by histogram bucket. */
  method MergeTables(table0: array<ApiInfo>, table1: array<ApiInfo>, histogramSize: u32)
    requires table0 != table1 && table0.Length == table1.Length
    requires Shaped(table0[..], table0.Length, histogramSize)
    requires Shaped(table1[..], table0.Length, histogramSize)
    modifies table0
    ensures table0[..] == MergedTable(old(table0[..]), table1[..], histogramSize)
  {
    for i := 0 to table0.Length
      invariant forall k :: 0 <= k < i ==> table0[k] == Merged(old(table0[k]), table1[k])
      invariant forall k :: i <= k < table0.Length ==> table0[k] == old(table0[k])
    {
      if table1[i].counter == 0 {
        continue;
      }
      var j := 0;
      while j < histogramSize
        invariant j <= histogramSize
        invariant |table0[i].histograms| == histogramSize
        invariant table0[i].(histograms := old(table0[i]).histograms) == old(table0[i])
        invariant forall m :: 0 <= m < j ==>
          table0[i].histograms[m] == Add32(old(table0[i]).histograms[m], table1[i].histograms[m])
        invariant forall m :: j <= m < histogramSize ==> table0[i].histograms[m] == old(table0[i]).histograms[m]
        invariant forall k :: 0 <= k < i ==> table0[k] == Merged(old(table0[k]), table1[k])
        invariant forall k :: i < k < table0.Length ==> table0[k] == old(table0[k])
      {
        var h := table0[i].histograms;
        table0[i] := table0[i].(histograms := h[j := Add32(h[j], table1[i].histograms[j])]);
        j := j + 1;
      }
      var api := table0[i];
      var src := table1[i];
      api := api.(entries := Add64(api.entries, src.entries));
      api := api.(counter := Add64(api.counter, src.counter));
      if api.minDuration > src.minDuration {
        api := api.(minDuration := src.minDuration);
      }
      if api.maxDuration < src.maxDuration {
        api := api.(maxDuration := src.maxDuration);
      }
      api := api.(sumDuration := Add64(api.sumDuration, src.sumDuration));
      assert api.histograms == Merged(old(table0[i]), src).histograms;
      table0[i] := api;
    }
  }
}
