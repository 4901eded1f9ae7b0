/** The data generators and the aggregate metrics of src/data/mockData.ts.
    Every Math.random() draw is a parameter in [0, 1); the current date is
    the day number `today`. */
module MockData {
  import opened Types
  import opened Text

  const ChannelNames: seq<string> :=
    ["Google Ads", "Facebook", "Instagram", "LinkedIn", "Twitter", "TikTok", "YouTube"]

  const CampaignTypes: seq<string> :=
    ["Summer Sale", "Black Friday", "Holiday Special", "Brand Awareness", "Product Launch", "Retargeting", "Lead Gen"]

  const StatusList: seq<Status> := [Active, Paused, Completed]

  /** A value Math.random() can return. */
  predicate IsDraw(u: real) {
    0.0 <= u < 1.0
  }

  /** Math.floor(u * n) for a draw `u`: a uniform index below `n`. */
  function Scaled(u: real, n: nat): (k: int)
    requires IsDraw(u) && n > 0
    ensures 0 <= k < n
  {
    assert u * n as real < n as real by {
      assert (1.0 - u) * n as real > 0.0;
    }
    (u * n as real).Floor
  }

  // ---------------------------------------------------------------------
  // generateCampaignData
  // ---------------------------------------------------------------------

  /** The ten draws of one record, in the order the object literal makes them. */
  datatype RecordDraws = RecordDraws(
    campaignType: real, revenue: real, users: real, conversions: real, growth: real,
    age: real, channel: real, status: real, ctr: real, cpc: real)

  predicate ValidRecordDraws(d: RecordDraws) {
    && IsDraw(d.campaignType) && IsDraw(d.revenue) && IsDraw(d.users) && IsDraw(d.conversions)
    && IsDraw(d.growth) && IsDraw(d.age) && IsDraw(d.channel) && IsDraw(d.status)
    && IsDraw(d.ctr) && IsDraw(d.cpc)
  }

  /** Record `i` of the generated list. */
  function GenerateRecord(i: nat, today: Day, d: RecordDraws): MetricData
    requires ValidRecordDraws(d)
  {
    MetricData(
      id := i + 1,
      campaignName := CampaignTypes[Scaled(d.campaignType, |CampaignTypes|)] + " " + IntToString(i + 1),
      revenue := Scaled(d.revenue, 50000) + 5000,
      users := Scaled(d.users, 10000) + 1000,
      conversions := Scaled(d.conversions, 500) + 50,
      growth := d.growth * 40.0 - 10.0,
      date := today - Scaled(d.age, 90),
      channel := ChannelNames[Scaled(d.channel, |ChannelNames|)],
      status := StatusList[Scaled(d.status, |StatusList|)],
      ctr := d.ctr * 5.0 + 1.0,
      cpc := d.cpc * 3.0 + 0.5)
  }

  /** The ranges a generated record keeps to. */
  ghost predicate Plausible(r: MetricData, today: Day) {
    && 5000 <= r.revenue <= 54999
    && 1000 <= r.users <= 10999
    && 50 <= r.conversions <= 549
    && -10.0 <= r.growth < 30.0
    && 1.0 <= r.ctr < 6.0
    && 0.5 <= r.cpc < 3.5
    && today - 89 <= r.date <= today
    && r.channel in ChannelNames
    && exists t :: t in CampaignTypes && r.campaignName == t + " " + IntToString(r.id)
  }

  lemma GenerateRecordPlausible(i: nat, today: Day, d: RecordDraws)
    requires ValidRecordDraws(d)
    ensures GenerateRecord(i, today, d).id == i + 1
    ensures Plausible(GenerateRecord(i, today, d), today)
  {
    var r := GenerateRecord(i, today, d);
    assert -10.0 <= r.growth < 30.0 by {
      assert 0.0 <= d.growth * 40.0 < 40.0;
    }
    assert 1.0 <= r.ctr < 6.0 by {
      assert 0.0 <= d.ctr * 5.0 < 5.0;
    }
    assert 0.5 <= r.cpc < 3.5 by {
      assert 0.0 <= d.cpc * 3.0 < 3.0;
    }
    var t := CampaignTypes[Scaled(d.campaignType, |CampaignTypes|)];
    assert t in CampaignTypes && r.campaignName == t + " " + IntToString(r.id);
  }

  /** generateCampaignData(count), record `i` made from draws[i]. */
  function GenerateCampaignData(count: nat, today: Day, draws: seq<RecordDraws>): (r: seq<MetricData>)
    requires |draws| == count
    requires forall i :: 0 <= i < count ==> ValidRecordDraws(draws[i])
    ensures |r| == count
  {
    seq(count, i requires 0 <= i < count => GenerateRecord(i, today, draws[i]))
  }

  ghost function IdSet(r: seq<MetricData>): set<int> {
    set i | 0 <= i < |r| :: r[i].id
  }

  /** The records are numbered 1 to count in order, so their ids are
      distinct and cover exactly 1..count, and every record is plausible. */
  lemma GenerateCampaignDataSpec(count: nat, today: Day, draws: seq<RecordDraws>)
    requires |draws| == count
    requires forall i :: 0 <= i < count ==> ValidRecordDraws(draws[i])
    ensures var r := GenerateCampaignData(count, today, draws);
      && (forall i :: 0 <= i < count ==> r[i].id == i + 1 && Plausible(r[i], today))
      && (forall i, j :: 0 <= i < j < count ==> r[i].id != r[j].id)
      && forall k :: k in IdSet(r) <==> 1 <= k <= count
  {
    var r := GenerateCampaignData(count, today, draws);
    forall i | 0 <= i < count ensures r[i].id == i + 1 && Plausible(r[i], today) {
      GenerateRecordPlausible(i, today, draws[i]);
    }
    forall k | 1 <= k <= count ensures k in IdSet(r) {
      assert r[k - 1].id == k;
    }
  }

  // ---------------------------------------------------------------------
  // generateChartData
  // ---------------------------------------------------------------------

  /** The inputs of one chart point: `wave` stands for Math.sin(i / 7),
      the other three are draws. */
  datatype PointDraws = PointDraws(wave: real, revenue: real, users: real, conversions: real)

  predicate ValidPointDraws(d: PointDraws) {
    -1.0 <= d.wave <= 1.0 && IsDraw(d.revenue) && IsDraw(d.users) && IsDraw(d.conversions)
  }

  function GeneratePoint(i: nat, days: nat, today: Day, d: PointDraws): ChartData {
    var baseRevenue := 15000.0 + d.wave * 3000.0;
    ChartData(
      date := today - (days - 1 - i),
      revenue := (baseRevenue + d.revenue * 5000.0 - 2500.0).Floor,
      users := (baseRevenue / 3.0 + d.users * 2000.0 - 1000.0).Floor,
      conversions := (baseRevenue / 50.0 + d.conversions * 100.0 - 50.0).Floor)
  }

  /** generateChartData(days), point `i` made from draws[i]. */
  function GenerateChartData(days: nat, today: Day, draws: seq<PointDraws>): (r: seq<ChartData>)
    requires |draws| == days
    requires forall i :: 0 <= i < days ==> ValidPointDraws(draws[i])
    ensures |r| == days
  {
    seq(days, i requires 0 <= i < days => GeneratePoint(i, days, today, draws[i]))
  }

  /** One point per day, the last `days` days in order up to today, with
      revenue between 9500 and 20499. */
  lemma GenerateChartDataSpec(days: nat, today: Day, draws: seq<PointDraws>)
    requires |draws| == days
    requires forall i :: 0 <= i < days ==> ValidPointDraws(draws[i])
    ensures var r := GenerateChartData(days, today, draws);
      && (forall i :: 0 <= i < days ==> r[i].date == today - (days - 1 - i))
      && (days > 0 ==> r[days - 1].date == today)
      && (forall i :: 0 <= i < days ==> 9500 <= r[i].revenue <= 20499)
  {
    var r := GenerateChartData(days, today, draws);
    forall i | 0 <= i < days ensures 9500 <= r[i].revenue <= 20499 {
      var d := draws[i];
      var x := 15000.0 + d.wave * 3000.0 + d.revenue * 5000.0 - 2500.0;
      assert 12000.0 <= 15000.0 + d.wave * 3000.0 <= 18000.0;
      assert 0.0 <= d.revenue * 5000.0 < 5000.0;
      assert 9500.0 <= x < 20500.0;
    }
  }

  // ---------------------------------------------------------------------
  // generateChannelData
  // ---------------------------------------------------------------------

  function GenerateChannelData(): seq<ChannelData> {
    [ ChannelData("Google Ads", 35, "#3B82F6"),
      ChannelData("Facebook", 25, "#8B5CF6"),
      ChannelData("Instagram", 20, "#F59E0B"),
      ChannelData("LinkedIn", 12, "#10B981"),
      ChannelData("Twitter", 5, "#EF4444"),
      ChannelData("Others", 3, "#6B7280") ]
  }

  function ShareSum(s: seq<ChannelData>): int {
    if s == [] then 0 else s[0].value + ShareSum(s[1..])
  }

  /** Six slices, each a positive share, together 100 percent. */
  lemma ChannelSharesTotal()
    ensures |GenerateChannelData()| == 6
    ensures forall i :: 0 <= i < 6 ==> GenerateChannelData()[i].value > 0
    ensures ShareSum(GenerateChannelData()) == 100
  {
    var s := GenerateChannelData();
    assert s[1..][1..][1..][1..][1..][1..] == [];
  }

  // ---------------------------------------------------------------------
  // calculateMetrics
  // ---------------------------------------------------------------------

  /** `data.reduce((sum, item) => sum + f(item), 0)`. */
  function SumBy(data: seq<MetricData>, f: MetricData -> int): int {
    if data == [] then 0 else SumBy(data[..|data| - 1], f) + f(data[|data| - 1])
  }

  /** The same fold over a real-valued field. */
  function SumReal(data: seq<MetricData>, f: MetricData -> real): real {
    if data == [] then 0.0 else SumReal(data[..|data| - 1], f) + f(data[|data| - 1])
  }

  function Revenue(r: MetricData): int { r.revenue }
  function Users(r: MetricData): int { r.users }
  function Conversions(r: MetricData): int { r.conversions }
  function Growth(r: MetricData): real { r.growth }

  /** `avgGrowth` is None where the code divides 0 by 0 and gets NaN. */
  datatype Metrics = Metrics(totalRevenue: int, totalUsers: int, totalConversions: int, avgGrowth: Option<real>)

  function CalculateMetrics(data: seq<MetricData>): (m: Metrics)
    ensures data == [] ==> m == Metrics(0, 0, 0, None)
    ensures data != [] ==> m.avgGrowth.Some?
  {
    Metrics(
      SumBy(data, Revenue), SumBy(data, Users), SumBy(data, Conversions),
      if data == [] then None else Some(SumReal(data, Growth) / |data| as real))
  }

  lemma {:induction false} SumByAppend(a: seq<MetricData>, b: seq<MetricData>, f: MetricData -> int)
    ensures SumBy(a + b, f) == SumBy(a, f) + SumBy(b, f)
    decreases |b|
  {
    if b == [] {
      assert a + b == a;
    } else {
      assert (a + b)[..|a + b| - 1] == a + b[..|b| - 1];
      SumByAppend(a, b[..|b| - 1], f);
    }
  }

  lemma {:induction false} SumRealAppend(a: seq<MetricData>, b: seq<MetricData>, f: MetricData -> real)
    ensures SumReal(a + b, f) == SumReal(a, f) + SumReal(b, f)
    decreases |b|
  {
    if b == [] {
      assert a + b == a;
    } else {
      assert (a + b)[..|a + b| - 1] == a + b[..|b| - 1];
      SumRealAppend(a, b[..|b| - 1], f);
    }
  }

  /** The fold adds up each element once, whatever the order. */
  lemma {:induction false} SumByPermutation(a: seq<MetricData>, b: seq<MetricData>, f: MetricData -> int)
    requires multiset(a) == multiset(b)
    ensures SumBy(a, f) == SumBy(b, f)
    decreases |a|
  {
    if a != [] {
      var x := a[|a| - 1];
      assert x in multiset(b);
      var k :| 0 <= k < |b| && b[k] == x;
      var rest := b[..k] + b[k + 1..];
      assert b == b[..k] + [x] + b[k + 1..];
      assert a == a[..|a| - 1] + [x];
      assert multiset(b) == multiset(b[..k]) + multiset{x} + multiset(b[k + 1..]);
      assert multiset(rest) == multiset(b[..k]) + multiset(b[k + 1..]);
      assert multiset(a[..|a| - 1]) == multiset(a) - multiset{x};
      assert multiset(rest) == multiset(b) - multiset{x};
      SumByPermutation(a[..|a| - 1], rest, f);
      SumByAppend(b[..k] + [x], b[k + 1..], f);
      SumByAppend(b[..k], [x], f);
      SumByAppend(b[..k], b[k + 1..], f);
      assert SumBy([x], f) == f(x) by {
        assert [x][..0] == [];
      }
    }
  }

  lemma {:induction false} SumRealPermutation(a: seq<MetricData>, b: seq<MetricData>, f: MetricData -> real)
    requires multiset(a) == multiset(b)
    ensures SumReal(a, f) == SumReal(b, f)
    decreases |a|
  {
    if a != [] {
      var x := a[|a| - 1];
      assert x in multiset(b);
      var k :| 0 <= k < |b| && b[k] == x;
      var rest := b[..k] + b[k + 1..];
      assert b == b[..k] + [x] + b[k + 1..];
      assert a == a[..|a| - 1] + [x];
      assert multiset(b) == multiset(b[..k]) + multiset{x} + multiset(b[k + 1..]);
      assert multiset(rest) == multiset(b[..k]) + multiset(b[k + 1..]);
      assert multiset(a[..|a| - 1]) == multiset(a) - multiset{x};
      assert multiset(rest) == multiset(b) - multiset{x};
      SumRealPermutation(a[..|a| - 1], rest, f);
      SumRealAppend(b[..k] + [x], b[k + 1..], f);
      SumRealAppend(b[..k], [x], f);
      SumRealAppend(b[..k], b[k + 1..], f);
      assert SumReal([x], f) == f(x) by {
        assert [x][..0] == [];
      }
    }
  }

  /** The metrics depend only on which records there are, not on their
      order: reordering the list changes none of them. */
  lemma MetricsPermutation(a: seq<MetricData>, b: seq<MetricData>)
    requires multiset(a) == multiset(b)
    ensures CalculateMetrics(a) == CalculateMetrics(b)
  {
    assert |a| == |multiset(a)| == |multiset(b)| == |b|;
    SumByPermutation(a, b, Revenue);
    SumByPermutation(a, b, Users);
    SumByPermutation(a, b, Conversions);
    SumRealPermutation(a, b, Growth);
  }

  /** The totals of two lists together are the sums of their totals. */
  lemma MetricsAppend(a: seq<MetricData>, b: seq<MetricData>)
    ensures CalculateMetrics(a + b).totalRevenue == CalculateMetrics(a).totalRevenue + CalculateMetrics(b).totalRevenue
    ensures CalculateMetrics(a + b).totalUsers == CalculateMetrics(a).totalUsers + CalculateMetrics(b).totalUsers
    ensures CalculateMetrics(a + b).totalConversions == CalculateMetrics(a).totalConversions + CalculateMetrics(b).totalConversions
  {
    SumByAppend(a, b, Revenue);
    SumByAppend(a, b, Users);
    SumByAppend(a, b, Conversions);
  }

  /** A total of values in [lo, hi] lies between n * lo and n * hi. */
  lemma {:induction false} SumByBounds(data: seq<MetricData>, f: MetricData -> int, lo: int, hi: int)
    requires forall i :: 0 <= i < |data| ==> lo <= f(data[i]) <= hi
    ensures |data| * lo <= SumBy(data, f) <= |data| * hi
  {
    if data != [] {
      SumByBounds(data[..|data| - 1], f, lo, hi);
    }
  }

  lemma {:induction false} SumRealBounds(data: seq<MetricData>, f: MetricData -> real, lo: real, hi: real)
    requires forall i :: 0 <= i < |data| ==> lo <= f(data[i]) <= hi
    ensures |data| as real * lo <= SumReal(data, f) <= |data| as real * hi
  {
    if data != [] {
      SumRealBounds(data[..|data| - 1], f, lo, hi);
    }
  }

  /** The average growth of a non-empty list lies between its smallest and
      its largest growth. */
  lemma AvgGrowthBounds(data: seq<MetricData>, lo: real, hi: real)
    requires data != []
    requires forall i :: 0 <= i < |data| ==> lo <= data[i].growth <= hi
    ensures lo <= CalculateMetrics(data).avgGrowth.value <= hi
  {
    SumRealBounds(data, Growth, lo, hi);
    var n := |data| as real;
    var s := SumReal(data, Growth);
    assert n * lo <= s <= n * hi;
    assert lo <= s / n <= hi by {
      assert (s / n) * n == s;
    }
  }

  /** The metric cards during a session: 100 fresh records total between
      500000 and 5499900 in revenue, and their average growth lies in
      [-10, 30]. */
  lemma GeneratedMetricsBounds(today: Day, draws: seq<RecordDraws>)
    requires |draws| == 100
    requires forall i :: 0 <= i < 100 ==> ValidRecordDraws(draws[i])
    ensures var m := CalculateMetrics(GenerateCampaignData(100, today, draws));
      && 500000 <= m.totalRevenue <= 5499900
      && 100000 <= m.totalUsers <= 1099900
      && 5000 <= m.totalConversions <= 54900
      && m.avgGrowth.Some? && -10.0 <= m.avgGrowth.value <= 30.0
  {
    var r := GenerateCampaignData(100, today, draws);
    GenerateCampaignDataSpec(100, today, draws);
    SumByBounds(r, Revenue, 5000, 54999);
    SumByBounds(r, Users, 1000, 10999);
    SumByBounds(r, Conversions, 50, 549);
    AvgGrowthBounds(r, -10.0, 30.0);
  }
}
