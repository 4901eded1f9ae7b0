/** The top-campaigns chart of src/components/charts/BarChart.tsx: the
    caller's array sorted in place by revenue, descending, its first ten
    rows with names shortened to 15 characters, and the chart's element id. */
module BarChart {
  import opened Types
  import opened Text
  import Sorting
  import opened Query

  /** The comparator `(a, b) => b.revenue - a.revenue` is the table's revenue
      column comparator in descending order. */
  function ByRevenueDesc(): (MetricData, MetricData) -> real {
    RowComparator(RevenueColumn, Desc)
  }

  /** The comparator is positive exactly when `a` has less revenue than `b`. */
  lemma ByRevenueDescPositive(a: MetricData, b: MetricData)
    ensures ByRevenueDesc()(a, b) > 0.0 <==> a.revenue < b.revenue
  {
  }

  /** `data.sort((a, b) => b.revenue - a.revenue)`: an insertion sort of the
      array in place. Each row moves left past every row of smaller revenue,
      so rows of equal revenue keep their order. */
  method SortByRevenueDesc(a: array<MetricData>)
    modifies a
    ensures a[..] == SortRecords(RevenueColumn, Desc, old(a[..]))
  {
    ghost var input := a[..];
    var i := 0;
    while i < a.Length
      invariant 0 <= i <= a.Length
      invariant a[..i] == Sorting.Sort(ByRevenueDesc(), input[..i])
      invariant a[i..] == input[i..]
    {
      InsertAt(a, i);
      Sorting.SortSnoc(ByRevenueDesc(), input, i);
      assert a[i + 1..] == input[i + 1..];
      i := i + 1;
    }
    assert a[..] == a[..a.Length];
    assert input == input[..a.Length];
  }

  /** One pass of the insertion sort: a[i] moves left past every row of
      smaller revenue in the sorted prefix a[..i]. */
  method InsertAt(a: array<MetricData>, i: nat)
    requires i < a.Length
    modifies a
    ensures a[..i + 1] == Sorting.InsertLast(ByRevenueDesc(), old(a[..i]), old(a[i]))
    ensures a[i + 1..] == old(a[i + 1..])
  {
    ghost var sorted := a[..i];
    var x := a[i];
    var j := i;
    while j > 0 && a[j - 1].revenue < x.revenue
      invariant 0 <= j <= i
      invariant forall k :: 0 <= k < j ==> a[k] == sorted[k]
      invariant forall k :: j < k <= i ==> a[k] == sorted[k - 1]
      invariant forall k :: i < k < a.Length ==> a[k] == old(a[k])
      invariant forall k :: j <= k < i ==> sorted[k].revenue < x.revenue
    {
      a[j] := a[j - 1];
      j := j - 1;
    }
    a[j] := x;
    InsertedAt(sorted, j, x);
    ghost var placed := sorted[..j] + [x] + sorted[j..];
    forall k | 0 <= k <= i ensures a[k] == placed[k] {
      if k > j {
        assert placed[k] == sorted[k - 1];
      }
    }
    assert a[..i + 1] == placed;
  }

  /** Where the shifting loop stops, the row lands where the stable sort
      would insert it. */
  lemma InsertedAt(sorted: seq<MetricData>, j: nat, x: MetricData)
    requires j <= |sorted|
    requires j == 0 || sorted[j - 1].revenue >= x.revenue
    requires forall k :: j <= k < |sorted| ==> sorted[k].revenue < x.revenue
    ensures Sorting.InsertLast(ByRevenueDesc(), sorted, x) == sorted[..j] + [x] + sorted[j..]
  {
    var cmp := ByRevenueDesc();
    forall k | j <= k < |sorted| ensures cmp(sorted[k], x) > 0.0 {
      ByRevenueDescPositive(sorted[k], x);
    }
    if j > 0 {
      ByRevenueDescPositive(sorted[j - 1], x);
    }
    Sorting.InsertLastPosition(cmp, sorted, j, x);
  }

  /** One bar: the shortened name, the revenue and the conversions. */
  datatype BarEntry = BarEntry(name: string, revenue: int, conversions: int)

  /** Names longer than 15 characters become their first 15 and "...". */
  function TruncateName(name: string): (r: string)
    ensures |name| > 15 ==> |r| == 18 && r[..15] == name[..15] && r[15..] == "..."
    ensures |name| <= 15 ==> r == name
  {
    if |name| > 15 then name[..15] + "..." else name
  }

  function ToEntry(r: MetricData): (e: BarEntry)
    ensures e.revenue == r.revenue && e.conversions == r.conversions
    ensures e.name == TruncateName(r.campaignName)
  {
    BarEntry(TruncateName(r.campaignName), r.revenue, r.conversions)
  }

  const ChartSize: nat := 10

  /** `.slice(0, 10).map(...)` of the sorted rows. */
  function TopEntries(sorted: seq<MetricData>): (top: seq<BarEntry>)
    ensures |top| == Min(ChartSize, |sorted|)
    ensures forall i :: 0 <= i < |top| ==> top[i] == ToEntry(sorted[i])
  {
    var n := Min(ChartSize, |sorted|);
    seq(n, i requires 0 <= i < n => ToEntry(sorted[i]))
  }

  /** The whole top-campaigns computation: sort the caller's array, then
      take the first ten entries. */
  method TopCampaigns(data: array<MetricData>) returns (top: seq<BarEntry>)
    modifies data
    ensures data[..] == SortRecords(RevenueColumn, Desc, old(data[..]))
    ensures top == TopEntries(data[..])
  {
    SortByRevenueDesc(data);
    top := TopEntries(data[..]);
  }

  /** At most ten bars, in non-increasing revenue; every row left out has
      no more revenue than any bar; the sorted array is a permutation of the
      rows, whose ties on revenue keep their order. */
  lemma TopEntriesSpec(s: seq<MetricData>)
    ensures var sorted := SortRecords(RevenueColumn, Desc, s);
      var top := TopEntries(sorted);
      && |top| <= ChartSize
      && |top| == Min(ChartSize, |s|)
      && multiset(sorted) == multiset(s)
      && (forall i, j :: 0 <= i < j < |top| ==> top[i].revenue >= top[j].revenue)
      && (forall i, j :: 0 <= i < |top| <= j < |sorted| ==> sorted[j].revenue <= top[i].revenue)
  {
    var sorted := SortRecords(RevenueColumn, Desc, s);
    SortRecordsCorrect(RevenueColumn, Desc, s);
    NumericOrder(RevenueColumn, Desc, s);
    assert |sorted| == |multiset(sorted)| == |multiset(s)| == |s|;
    var top := TopEntries(sorted);
    forall i, j | 0 <= i < |top| <= j < |sorted| ensures sorted[j].revenue <= top[i].revenue {
      assert KeyOf(RevenueColumn, sorted[i]).x >= KeyOf(RevenueColumn, sorted[j]).x;
    }
  }

  /** No row of the input outside the chart beats a row in it: each row of
      `s` is drawn, or has at most the revenue of the smallest bar. */
  lemma TopEntriesAreTop(s: seq<MetricData>, x: MetricData)
    requires x in s
    ensures var sorted := SortRecords(RevenueColumn, Desc, s);
      var top := TopEntries(sorted);
      (exists i :: 0 <= i < |top| && sorted[i] == x) || forall i :: 0 <= i < |top| ==> x.revenue <= top[i].revenue
  {
    var sorted := SortRecords(RevenueColumn, Desc, s);
    TopEntriesSpec(s);
    assert x in multiset(s);
    assert x in multiset(sorted);
    var k :| 0 <= k < |sorted| && sorted[k] == x;
    var top := TopEntries(sorted);
    if k >= |top| {
      assert forall i :: 0 <= i < |top| ==> sorted[k].revenue <= top[i].revenue;
    }
  }

  /** The title lower-cased, with every run of whitespace replaced by one '-'. */
  function Slug(title: string): string {
    DashRuns(Lower(title))
  }

  /** chartId. */
  function ChartId(title: string): string {
    "bar-chart-" + Slug(title)
  }

  /** The id is the prefix and then no whitespace at all; a title without
      whitespace is only lower-cased. */
  lemma ChartIdShape(title: string)
    ensures var id := ChartId(title);
      && id[..10] == "bar-chart-" && NoWhitespace(id[10..])
      && (NoWhitespace(title) ==> id == "bar-chart-" + Lower(title))
  {
    var id := ChartId(title);
    var low := Lower(title);
    DashRunsNoWhitespace(low);
    assert id[10..] == DashRuns(low);
    if NoWhitespace(title) {
      LowerKeepsWhitespace(title);
      assert NoWhitespace(low);
    }
  }

  /** Two parts of a title separated by a run of whitespace are joined by
      exactly one '-'. */
  lemma SlugWords(u: string, w: string, v: string)
    requires w != [] && forall i :: 0 <= i < |w| ==> IsWhitespace(w[i])
    requires u == [] || !IsWhitespace(u[|u| - 1])
    requires v == [] || !IsWhitespace(v[0])
    ensures Slug(u + w + v) == Slug(u) + "-" + Slug(v)
  {
    LowerConcat(u, w);
    LowerConcat(u + w, v);
    var lu, lw, lv := Lower(u), Lower(w), Lower(v);
    assert Lower(u + w + v) == lu + lw + lv;
    LowerKeepsWhitespace(u);
    LowerKeepsWhitespace(w);
    LowerKeepsWhitespace(v);
    assert lw != [] && forall i :: 0 <= i < |lw| ==> IsWhitespace(lw[i]);
    assert lu == [] || !IsWhitespace(lu[|lu| - 1]);
    assert lv == [] || !IsWhitespace(lv[0]);
    DashRunsSplit(lu, lw, lv);
  }

  lemma ChartIdWords(u: string, w: string, v: string)
    requires w != [] && forall i :: 0 <= i < |w| ==> IsWhitespace(w[i])
    requires u == [] || !IsWhitespace(u[|u| - 1])
    requires v == [] || !IsWhitespace(v[0])
    ensures ChartId(u + w + v) == ChartId(u) + "-" + Slug(v)
  {
    SlugWords(u, w, v);
  }

  /** Lower-casing maps whitespace to whitespace and nothing else to it. */
  lemma LowerKeepsWhitespace(s: string)
    ensures forall i :: 0 <= i < |s| ==> (IsWhitespace(Lower(s)[i]) <==> IsWhitespace(s[i]))
  {
    forall i | 0 <= i < |s| ensures IsWhitespace(Lower(s)[i]) <==> IsWhitespace(s[i]) {
      LowerCharWhitespace(s[i]);
    }
  }

  lemma LowerCharWhitespace(c: char)
    ensures IsWhitespace(LowerChar(c)) <==> IsWhitespace(c)
  {
  }
}
