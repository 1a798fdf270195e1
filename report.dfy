/** What PERFWriteCounters reports for the merged table: one summary row per
    API that is listed, and one histogram row per API that recorded an exit.
    The text layout and the files are left out; a row holds the printed
    values. */
module Report {
  import opened Words
  import opened ApiStats

  /** One line of the summary log (the standard deviation and the sum of
      squares are left out). */
  datatype ReportRow = ReportRow(
    apiId: nat, entries: u64, exits: u64, sumLatency: u64, minLatency: u64, maxLatency: u64)

  /** One line of the histogram log. */
  datatype HistogramRow = HistogramRow(apiId: nat, buckets: seq<u32>)

  /** The printed minimum: the _UI64_MAX sentinel of an API without exits
      prints as 0. */
  function ReportedMin(api: ApiInfo): (m: u64)
    ensures m == 0 <==> api.minDuration == U64_MAX || api.minDuration == 0
    ensures api.minDuration != U64_MAX ==> m == api.minDuration
  {
    if api.minDuration == U64_MAX then 0 else api.minDuration
  }

  /** An API gets a summary row when it recorded an exit or when every API is
      to be reported. */
  predicate Listed(api: ApiInfo, reportOnlyCalledApis: bool)
    ensures api.counter > 0 ==> Listed(api, reportOnlyCalledApis)
    ensures !reportOnlyCalledApis ==> Listed(api, reportOnlyCalledApis)
    ensures Listed(api, reportOnlyCalledApis) ==> api.counter > 0 || !reportOnlyCalledApis
  {
    api.counter > 0 || !reportOnlyCalledApis
  }

  function RowOf(id: nat, api: ApiInfo): ReportRow {
    ReportRow(id, api.entries, api.counter, api.sumDuration, ReportedMin(api), api.maxDuration)
  }

  /** Each row is the row of a listed API of `table`. */
  ghost predicate SummaryRowsFaithful(rows: seq<ReportRow>, table: seq<ApiInfo>, reportOnlyCalledApis: bool) {
    forall k :: 0 <= k < |rows| ==>
      rows[k].apiId < |table| && Listed(table[rows[k].apiId], reportOnlyCalledApis)
      && rows[k] == RowOf(rows[k].apiId, table[rows[k].apiId])
  }

  /** The rows name strictly increasing APIs. */
  ghost predicate SummaryOrdered(rows: seq<ReportRow>) {
    forall k, l :: 0 <= k < l < |rows| ==> rows[k].apiId < rows[l].apiId
  }

  /** Every listed API of `table` has a row. */
  ghost predicate SummaryComplete(rows: seq<ReportRow>, table: seq<ApiInfo>, reportOnlyCalledApis: bool) {
    forall i :: 0 <= i < |table| && Listed(table[i], reportOnlyCalledApis) ==>
      exists k :: 0 <= k < |rows| && rows[k].apiId == i
  }

  /** `rows` are the rows of the listed APIs of `table`, in API order, one each. */
  ghost predicate IsSummary(rows: seq<ReportRow>, table: seq<ApiInfo>, reportOnlyCalledApis: bool) {
    && SummaryRowsFaithful(rows, table, reportOnlyCalledApis)
    && SummaryOrdered(rows)
    && SummaryComplete(rows, table, reportOnlyCalledApis)
  }

  /** Each row holds the buckets of an API of `table` that recorded an exit. */
  ghost predicate HistogramRowsFaithful(rows: seq<HistogramRow>, table: seq<ApiInfo>) {
    forall k :: 0 <= k < |rows| ==>
      rows[k].apiId < |table| && table[rows[k].apiId].counter > 0
      && rows[k].buckets == table[rows[k].apiId].histograms
  }

  /** The rows name strictly increasing APIs. */
  ghost predicate HistogramsOrdered(rows: seq<HistogramRow>) {
    forall k, l :: 0 <= k < l < |rows| ==> rows[k].apiId < rows[l].apiId
  }

  /** Every API of `table` that recorded an exit has a row. */
  ghost predicate HistogramsComplete(rows: seq<HistogramRow>, table: seq<ApiInfo>) {
    forall i :: 0 <= i < |table| && table[i].counter > 0 ==>
      exists k :: 0 <= k < |rows| && rows[k].apiId == i
  }

  /** `rows` are the histograms of the APIs of `table` that recorded an exit,
      in API order, one each. */
  ghost predicate IsHistogramReport(rows: seq<HistogramRow>, table: seq<ApiInfo>) {
    && HistogramRowsFaithful(rows, table)
    && HistogramsOrdered(rows)
    && HistogramsComplete(rows, table)
  }

  /** The summary rows of `table`, in API order. */
  function SummaryOf(table: seq<ApiInfo>, reportOnlyCalledApis: bool): seq<ReportRow>
    decreases |table|
  {
    if table == [] then []
    else
      var last := |table| - 1;
      SummaryOf(table[..last], reportOnlyCalledApis)
        + (if Listed(table[last], reportOnlyCalledApis) then [RowOf(last, table[last])] else [])
  }

  /** The histogram rows of `table`, in API order. */
  function HistogramsOf(table: seq<ApiInfo>): seq<HistogramRow>
    decreases |table|
  {
    if table == [] then []
    else
      var last := |table| - 1;
      HistogramsOf(table[..last])
        + (if table[last].counter > 0 then [HistogramRow(last, table[last].histograms)] else [])
  }

  /** Each row of `SummaryOf` is the row of a listed API of the table. */
  lemma {:induction false} SummaryOfRows(table: seq<ApiInfo>, reportOnlyCalledApis: bool)
    ensures SummaryRowsFaithful(SummaryOf(table, reportOnlyCalledApis), table, reportOnlyCalledApis)
    decreases |table|
  {
    if table != [] {
      var prefix := table[..|table| - 1];
      SummaryOfRows(prefix, reportOnlyCalledApis);
      var before := SummaryOf(prefix, reportOnlyCalledApis);
      var rows := SummaryOf(table, reportOnlyCalledApis);
      forall k | 0 <= k < |before|
        ensures rows[k] == before[k] && table[before[k].apiId] == prefix[before[k].apiId]
      {
      }
    }
  }

  /** The rows of `SummaryOf` name strictly increasing APIs. */
  lemma {:induction false} SummaryOfOrdered(table: seq<ApiInfo>, reportOnlyCalledApis: bool)
    ensures SummaryOrdered(SummaryOf(table, reportOnlyCalledApis))
    decreases |table|
  {
    if table != [] {
      var prefix := table[..|table| - 1];
      SummaryOfOrdered(prefix, reportOnlyCalledApis);
      SummaryOfRows(prefix, reportOnlyCalledApis);
      var before := SummaryOf(prefix, reportOnlyCalledApis);
      var rows := SummaryOf(table, reportOnlyCalledApis);
      assert forall k :: 0 <= k < |before| ==> rows[k] == before[k];
    }
  }

  /** Every listed API of the table has a row in `SummaryOf`. */
  lemma {:induction false} SummaryOfComplete(table: seq<ApiInfo>, reportOnlyCalledApis: bool)
    ensures SummaryComplete(SummaryOf(table, reportOnlyCalledApis), table, reportOnlyCalledApis)
    decreases |table|
  {
    if table != [] {
      var last := |table| - 1;
      var prefix := table[..last];
      SummaryOfComplete(prefix, reportOnlyCalledApis);
      var before := SummaryOf(prefix, reportOnlyCalledApis);
      var rows := SummaryOf(table, reportOnlyCalledApis);
      forall i | 0 <= i < |table| && Listed(table[i], reportOnlyCalledApis)
        ensures exists k :: 0 <= k < |rows| && rows[k].apiId == i
      {
        if i == last {
          assert rows[|before|].apiId == last;
        } else {
          assert prefix[i] == table[i];
          var k :| 0 <= k < |before| && before[k].apiId == i;
          assert rows[k] == before[k];
        }
      }
    }
  }

  /** `SummaryOf` lists exactly the listed APIs, each once, in order, with its
      printed values. */
  lemma SummaryOfIsSummary(table: seq<ApiInfo>, reportOnlyCalledApis: bool)
    ensures IsSummary(SummaryOf(table, reportOnlyCalledApis), table, reportOnlyCalledApis)
  {
    SummaryOfRows(table, reportOnlyCalledApis);
    SummaryOfOrdered(table, reportOnlyCalledApis);
    SummaryOfComplete(table, reportOnlyCalledApis);
  }

  /** Each row of `HistogramsOf` holds the buckets of an API that recorded an exit. */
  lemma {:induction false} HistogramsOfRows(table: seq<ApiInfo>)
    ensures HistogramRowsFaithful(HistogramsOf(table), table)
    decreases |table|
  {
    if table != [] {
      var prefix := table[..|table| - 1];
      HistogramsOfRows(prefix);
      var before := HistogramsOf(prefix);
      var rows := HistogramsOf(table);
      forall k | 0 <= k < |before|
        ensures rows[k] == before[k] && table[before[k].apiId] == prefix[before[k].apiId]
      {
      }
    }
  }

  /** The rows of `HistogramsOf` name strictly increasing APIs. */
  lemma {:induction false} HistogramsOfOrdered(table: seq<ApiInfo>)
    ensures HistogramsOrdered(HistogramsOf(table))
    decreases |table|
  {
    if table != [] {
      var prefix := table[..|table| - 1];
      HistogramsOfOrdered(prefix);
      HistogramsOfRows(prefix);
      var before := HistogramsOf(prefix);
      var rows := HistogramsOf(table);
      assert forall k :: 0 <= k < |before| ==> rows[k] == before[k];
    }
  }

  /** Every API of the table that recorded an exit has a row in `HistogramsOf`. */
  lemma {:induction false} HistogramsOfComplete(table: seq<ApiInfo>)
    ensures HistogramsComplete(HistogramsOf(table), table)
    decreases |table|
  {
    if table != [] {
      var last := |table| - 1;
      var prefix := table[..last];
      HistogramsOfComplete(prefix);
      var before := HistogramsOf(prefix);
      var rows := HistogramsOf(table);
      forall i | 0 <= i < |table| && table[i].counter > 0
        ensures exists k :: 0 <= k < |rows| && rows[k].apiId == i
      {
        if i == last {
          assert rows[|before|].apiId == last;
        } else {
          assert prefix[i] == table[i];
          var k :| 0 <= k < |before| && before[k].apiId == i;
          assert rows[k] == before[k];
        }
      }
    }
  }

  /** `HistogramsOf` lists exactly the APIs that recorded an exit, each once, in
      order, with their buckets. */
  lemma HistogramsOfIsReport(table: seq<ApiInfo>)
    ensures IsHistogramReport(HistogramsOf(table), table)
  {
    HistogramsOfRows(table);
    HistogramsOfOrdered(table);
    HistogramsOfComplete(table);
  }

  /** For a record that started fresh, the printed minimum is 0 when no exit
      was recorded, and otherwise the least recorded duration unless every
      duration was the sentinel value itself. */
  lemma ReportedMinOfRun(size: nat, ds: seq<u64>, step: u32)
    requires size > 0 ==> step > 0
    ensures ds == [] ==> ReportedMin(Run(Fresh(size), ds, step)) == 0
    ensures (exists k :: 0 <= k < |ds| && ds[k] < U64_MAX) ==>
      var m := ReportedMin(Run(Fresh(size), ds, step));
      (forall k :: 0 <= k < |ds| ==> m <= ds[k]) && (exists k :: 0 <= k < |ds| && m == ds[k])
  {
    RunIsSummary(Fresh(size), ds, step);
    LeastBounds(U64_MAX, ds);
  }

  /** PERFWriteCounters. Whether each log file opens is an input; the
      status is -1 when a file that is needed does not open. The histogram log
      is written only when histograms are on and the summary log was written. */
  method WriteCounters(table: array<ApiInfo>, reportOnlyCalledApis: bool, histogramSize: u32,
                       summaryOpens: bool, histogramOpens: bool)
    returns (status: int, rows: seq<ReportRow>, histogramRows: seq<HistogramRow>)
    ensures status == (if !summaryOpens || (histogramSize > 0 && !histogramOpens) then -1 else 0)
    ensures summaryOpens ==> IsSummary(rows, table[..], reportOnlyCalledApis)
    ensures rows == if summaryOpens then SummaryOf(table[..], reportOnlyCalledApis) else []
    ensures summaryOpens && histogramSize > 0 && histogramOpens ==>
      IsHistogramReport(histogramRows, table[..])
    ensures histogramRows ==
      if summaryOpens && histogramSize > 0 && histogramOpens then HistogramsOf(table[..]) else []
  {
    rows, histogramRows := [], [];
    if !summaryOpens {
      return -1, rows, histogramRows;
    }
    rows := SummaryRows(table, reportOnlyCalledApis);
    if histogramSize > 0 {
      if !histogramOpens {
        return -1, rows, histogramRows;
      }
      histogramRows := HistogramRows(table);
    }
    status := 0;
  }

  /** The first loop of PERFWriteCounters: a row for every listed API. */
  method SummaryRows(table: array<ApiInfo>, reportOnlyCalledApis: bool) returns (rows: seq<ReportRow>)
    ensures rows == SummaryOf(table[..], reportOnlyCalledApis)
    ensures IsSummary(rows, table[..], reportOnlyCalledApis)
  {
    rows := [];
    for i := 0 to table.Length
      invariant rows == SummaryOf(table[..i], reportOnlyCalledApis)
    {
      assert table[..i + 1][..i] == table[..i];
      var minDuration := if table[i].minDuration == U64_MAX then 0 else table[i].minDuration;
      if table[i].counter > 0 || !reportOnlyCalledApis {
        rows := rows + [ReportRow(i, table[i].entries, table[i].counter, table[i].sumDuration,
                                  minDuration, table[i].maxDuration)];
      }
    }
    assert table[..table.Length] == table[..];
    SummaryOfIsSummary(table[..], reportOnlyCalledApis);
  }

  /** The second loop of PERFWriteCounters: the buckets of every API that
      recorded an exit. */
  method HistogramRows(table: array<ApiInfo>) returns (rows: seq<HistogramRow>)
    ensures rows == HistogramsOf(table[..])
    ensures IsHistogramReport(rows, table[..])
  {
    rows := [];
    for i := 0 to table.Length
      invariant rows == HistogramsOf(table[..i])
    {
      assert table[..i + 1][..i] == table[..i];
      if table[i].counter > 0 {
        rows := rows + [HistogramRow(i, table[i].histograms)];
      }
    }
    assert table[..table.Length] == table[..];
    HistogramsOfIsReport(table[..]);
  }
}
