/** The dashboard page (src/pages/Dashboard.tsx): the campaign records
    kept by the optional, inclusive start and end dates feed the metric
    cards, the top-campaigns chart and the table. The date inputs'
    `yyyy-MM-dd` text is a day number here, an empty input `None`. */
module Dashboard {
  import opened Types
  import opened Seqs
  import opened MockData
  import opened Query
  import BarChart

  /** An item passes when there is no start or it is on or after the start,
      and there is no end or it is on or before the end. */
  predicate InDateRange(date: Day, start: Option<Day>, end: Option<Day>) {
    (start.None? || date >= start.value) && (end.None? || date <= end.value)
  }

  function InRange(start: Option<Day>, end: Option<Day>): MetricData -> bool {
    (r: MetricData) => InDateRange(r.date, start, end)
  }

  /** filteredCampaigns. */
  function FilterByDate(data: seq<MetricData>, start: Option<Day>, end: Option<Day>): seq<MetricData> {
    Filter(InRange(start, end), data)
  }

  /** The records kept are exactly the records of `data` whose date lies
      between the bounds, both included, each as often as `data` holds it
      and in the order of `data`. */
  lemma FilterByDateSpec(data: seq<MetricData>, start: Option<Day>, end: Option<Day>)
    ensures var r := FilterByDate(data, start, end);
      && Subsequence(r, data)
      && (forall x :: x in r <==> x in data && (start.None? || x.date >= start.value) && (end.None? || x.date <= end.value))
      && (forall x :: multiset(r)[x] == if InDateRange(x.date, start, end) then multiset(data)[x] else 0)
  {
    var r := FilterByDate(data, start, end);
    FilterSubsequence(InRange(start, end), data);
    FilterMultiset(InRange(start, end), data);
    forall x ensures x in r <==> x in data && InDateRange(x.date, start, end) {
      assert x in r <==> multiset(r)[x] > 0;
      assert x in data <==> multiset(data)[x] > 0;
    }
  }

  /** With both inputs empty, every record passes. */
  lemma NoBoundsKeepsAll(data: seq<MetricData>)
    ensures FilterByDate(data, None, None) == data
  {
    FilterAll(InRange(None, None), data);
  }

  /** A start after the end lets nothing through. */
  lemma EmptyRange(data: seq<MetricData>, start: Day, end: Day)
    requires start > end
    ensures FilterByDate(data, Some(start), Some(end)) == []
  {
    FilterNone(InRange(Some(start), Some(end)), data);
  }

  /** The two bounds act independently: filtering by the start and then by
      the end is filtering by both. */
  lemma BoundsCompose(data: seq<MetricData>, start: Option<Day>, end: Option<Day>)
    ensures FilterByDate(FilterByDate(data, start, None), None, end) == FilterByDate(data, start, end)
  {
    FilterBoth(InRange(None, end), InRange(start, None), InRange(start, end), data);
  }

  /** One render of the page: the metrics of the records in the date range,
      then the chart, which sorts that same array in place by revenue, and
      last the table, which receives the array as the chart left it. */
  method Render(campaignData: seq<MetricData>, start: Option<Day>, end: Option<Day>)
      returns (metrics: Metrics, bars: seq<BarChart.BarEntry>, tableData: seq<MetricData>)
    ensures metrics == CalculateMetrics(FilterByDate(campaignData, start, end))
    ensures tableData == SortRecords(RevenueColumn, Desc, FilterByDate(campaignData, start, end))
    ensures bars == BarChart.TopEntries(tableData)
  {
    var filtered := FilterByDate(campaignData, start, end);
    metrics := CalculateMetrics(filtered);
    var shared := new MetricData[|filtered|](i requires 0 <= i < |filtered| => filtered[i]);
    assert shared[..] == filtered;
    bars := BarChart.TopCampaigns(shared);
    tableData := shared[..];
  }

  /** The cards, the chart and the table all show the records in the date
      range: the rows the table receives are those records, so their metrics
      are the cards' metrics, and every bar is one of them. */
  lemma RenderAgrees(campaignData: seq<MetricData>, start: Option<Day>, end: Option<Day>)
    ensures var filtered := FilterByDate(campaignData, start, end);
      var tableData := SortRecords(RevenueColumn, Desc, filtered);
      && multiset(tableData) == multiset(filtered)
      && CalculateMetrics(tableData) == CalculateMetrics(filtered)
      && forall i :: 0 <= i < |BarChart.TopEntries(tableData)| ==>
           BarChart.TopEntries(tableData)[i] == BarChart.ToEntry(tableData[i]) && tableData[i] in filtered
  {
    var filtered := FilterByDate(campaignData, start, end);
    var tableData := SortRecords(RevenueColumn, Desc, filtered);
    SortRecordsCorrect(RevenueColumn, Desc, filtered);
    MetricsPermutation(tableData, filtered);
    forall i | 0 <= i < |tableData| ensures tableData[i] in filtered {
      assert tableData[i] in multiset(tableData);
    }
  }

  /** When the table is sorted by revenue, in either direction, the chart's
      earlier in-place sort changes nothing it shows: its rows are the same,
      in the same order, as for the records in their original order. */
  lemma TableIgnoresChartSort(s: seq<MetricData>, searchTerm: string, filterChannel: string, filterStatus: string, d: Direction)
    ensures var t := SortRecords(RevenueColumn, Desc, s);
      FilteredData(t, searchTerm, filterChannel, filterStatus, RevenueColumn, d)
        == FilteredData(s, searchTerm, filterChannel, filterStatus, RevenueColumn, d)
  {
    var t := SortRecords(RevenueColumn, Desc, s);
    var m := MatchesQuery(searchTerm, filterChannel, filterStatus);
    var a := FilterRecords(t, searchTerm, filterChannel, filterStatus);
    var b := FilterRecords(s, searchTerm, filterChannel, filterStatus);
    var r := SortRecords(RevenueColumn, d, a);
    SortRecordsCorrect(RevenueColumn, d, a);
    SortRecordsCorrect(RevenueColumn, Desc, s);
    FilterMultiset(m, t);
    FilterMultiset(m, s);
    assert multiset(a) == multiset(b);
    forall k ensures WithKey(RevenueColumn, r, k) == WithKey(RevenueColumn, b, k) {
      SortRecordsStable(RevenueColumn, d, a, k);
      SortRecordsStable(RevenueColumn, Desc, s, k);
      FilterCommute(KeyIs(RevenueColumn, k), m, t);
      FilterCommute(KeyIs(RevenueColumn, k), m, s);
    }
    SortRecordsUnique(RevenueColumn, d, b, r);
  }
}
