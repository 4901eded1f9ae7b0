/** The data hook of src/hooks/useData.ts: the campaign, chart and channel
    lists, the loading flag, the refresh sequence and the live-update tick.
    The 1.5 s timeout and the 30 s interval are explicit method calls; the
    draws of Math.random() and the current day are parameters. */
module LiveData {
  import opened Types
  import opened MockData

  // ---------------------------------------------------------------------
  // The live-update tick
  // ---------------------------------------------------------------------

  /** The three draws of one record's perturbation. */
  datatype TickDraws = TickDraws(revenue: real, users: real, conversions: real)

  predicate ValidTickDraws(d: TickDraws) {
    IsDraw(d.revenue) && IsDraw(d.users) && IsDraw(d.conversions)
  }

  /** Math.floor((u - 0.5) * magnitude): an integer in [-magnitude/2, magnitude/2). */
  function Delta(u: real, magnitude: nat): (k: int)
    requires IsDraw(u) && magnitude > 0 && magnitude % 2 == 0
    ensures -(magnitude / 2) <= k < magnitude / 2
  {
    var m := magnitude as real;
    var half := magnitude / 2;
    assert (u - 0.5) * m == u * m - half as real;
    var k := ((u - 0.5) * m).Floor;
    assert k == Scaled(u, magnitude) - half;
    k
  }

  /** The record with its three perturbed fields blanked out: what a tick
      leaves alone. */
  function Unperturbed(r: MetricData): MetricData {
    r.(revenue := 0, users := 0, conversions := 0)
  }

  function PerturbRecord(r: MetricData, d: TickDraws): (p: MetricData)
    requires ValidTickDraws(d)
    ensures Unperturbed(p) == Unperturbed(r)
    ensures -500 <= p.revenue - r.revenue <= 499
    ensures -50 <= p.users - r.users <= 49
    ensures -5 <= p.conversions - r.conversions <= 4
  {
    r.(revenue := r.revenue + Delta(d.revenue, 1000),
       users := r.users + Delta(d.users, 100),
       conversions := r.conversions + Delta(d.conversions, 10))
  }

  ghost predicate ValidTick(n: nat, draws: seq<TickDraws>) {
    |draws| == n && forall i :: 0 <= i < n ==> ValidTickDraws(draws[i])
  }

  /** The interval callback: `prev.map(...)`, record `i` with draws[i]. */
  function Tick(prev: seq<MetricData>, draws: seq<TickDraws>): (next: seq<MetricData>)
    requires ValidTick(|prev|, draws)
    ensures |next| == |prev|
  {
    seq(|prev|, i requires 0 <= i < |prev| => PerturbRecord(prev[i], draws[i]))
  }

  /** A tick keeps the length and the order of the list and every field of
      each record except revenue, users and conversions, which move by at
      most 500, 50 and 5, with no clamping. */
  lemma TickSpec(prev: seq<MetricData>, draws: seq<TickDraws>)
    requires ValidTick(|prev|, draws)
    ensures var next := Tick(prev, draws);
      forall i :: 0 <= i < |prev| ==>
        && Unperturbed(next[i]) == Unperturbed(prev[i])
        && -500 <= next[i].revenue - prev[i].revenue <= 499
        && -50 <= next[i].users - prev[i].users <= 49
        && -5 <= next[i].conversions - prev[i].conversions <= 4
  {
  }

  /** The change of record `i` after `k` ticks is within `k` times the
      per-tick range. */
  ghost predicate Drifted(base: MetricData, r: MetricData, k: nat) {
    && Unperturbed(r) == Unperturbed(base)
    && -500 * k <= r.revenue - base.revenue <= 499 * k
    && -50 * k <= r.users - base.users <= 49 * k
    && -5 * k <= r.conversions - base.conversions <= 4 * k
  }

  ghost predicate ValidTicks(n: nat, ticks: seq<seq<TickDraws>>) {
    forall t :: 0 <= t < |ticks| ==> ValidTick(n, ticks[t])
  }

  lemma ValidTicksPrefix(n: nat, ticks: seq<seq<TickDraws>>, k: nat)
    requires ValidTicks(n, ticks) && k <= |ticks|
    ensures ValidTicks(n, ticks[..k])
  {
    forall t | 0 <= t < k ensures ValidTick(n, ticks[..k][t]) {
      assert ticks[..k][t] == ticks[t];
    }
  }

  /** The list after the ticks `ticks`, the first one first. */
  function TickAll(data: seq<MetricData>, ticks: seq<seq<TickDraws>>): (r: seq<MetricData>)
    requires ValidTicks(|data|, ticks)
    ensures |r| == |data|
    decreases |ticks|
  {
    if ticks == [] then data
    else
      ValidTicksPrefix(|data|, ticks, |ticks| - 1);
      var before := TickAll(data, ticks[..|ticks| - 1]);
      Tick(before, ticks[|ticks| - 1])
  }

  /** After k ticks every record is within k times the per-tick range of the
      record it started as, and its unperturbed fields are unchanged. */
  lemma {:induction false} TickAllDrift(data: seq<MetricData>, ticks: seq<seq<TickDraws>>)
    requires ValidTicks(|data|, ticks)
    ensures forall i :: 0 <= i < |data| ==> Drifted(data[i], TickAll(data, ticks)[i], |ticks|)
    decreases |ticks|
  {
    if ticks != [] {
      var init := ticks[..|ticks| - 1];
      ValidTicksPrefix(|data|, ticks, |ticks| - 1);
      TickAllDrift(data, init);
      var before := TickAll(data, init);
      TickSpec(before, ticks[|ticks| - 1]);
      var k := |ticks|;
      forall i | 0 <= i < |data| ensures Drifted(data[i], TickAll(data, ticks)[i], k) {
        assert Drifted(data[i], before[i], k - 1);
      }
    }
  }

  // ---------------------------------------------------------------------
  // The hook's state
  // ---------------------------------------------------------------------

  class DataStore {
    var campaignData: seq<MetricData>
    var chartData: seq<ChartData>
    var channelData: seq<ChannelData>
    var loading: bool
    /** Timeouts scheduled by refreshData and not yet fired. */
    var pendingRefreshes: nat
    /** The 30-second interval is installed. */
    var intervalActive: bool

    /** With the refresh button disabled while loading, at most one refresh
        is in flight, and the table shows the loading state while it is. */
    ghost predicate Valid()
      reads this
    {
      pendingRefreshes <= 1 && (pendingRefreshes == 1 ==> loading)
    }

    /** The initial state: empty lists, loading. */
    constructor ()
      ensures Valid()
      ensures campaignData == [] && chartData == [] && channelData == []
      ensures loading && pendingRefreshes == 0 && !intervalActive
    {
      campaignData := [];
      chartData := [];
      channelData := [];
      loading := true;
      pendingRefreshes := 0;
      intervalActive := false;
    }

    /** refreshData: show the loading state and schedule the reload. */
    method RefreshData()
      modifies this
      ensures loading && pendingRefreshes == old(pendingRefreshes) + 1
      ensures campaignData == old(campaignData) && chartData == old(chartData) && channelData == old(channelData)
      ensures intervalActive == old(intervalActive)
    {
      loading := true;
      pendingRefreshes := pendingRefreshes + 1;
    }

    /** The mount effect: a first refresh, then the interval. */
    method Mount()
      requires Valid() && pendingRefreshes == 0 && !intervalActive
      modifies this
      ensures Valid()
      ensures loading && pendingRefreshes == 1 && intervalActive
      ensures campaignData == old(campaignData) && chartData == old(chartData) && channelData == old(channelData)
    {
      RefreshData();
      intervalActive := true;
    }

    /** The header's refresh button, which is disabled while loading. */
    method PressRefresh()
      requires Valid()
      modifies this
      ensures Valid()
      ensures old(loading) ==> pendingRefreshes == old(pendingRefreshes) && loading
      ensures !old(loading) ==> pendingRefreshes == 1 && loading
      ensures campaignData == old(campaignData) && chartData == old(chartData) && channelData == old(channelData)
      ensures intervalActive == old(intervalActive)
    {
      if !loading {
        RefreshData();
      }
    }

    /** The timeout of a refresh fires: the three lists are replaced
        wholesale and loading ends. */
    method CompleteRefresh(today: Day, recordDraws: seq<RecordDraws>, pointDraws: seq<PointDraws>)
      requires pendingRefreshes > 0
      requires |recordDraws| == 100 && forall i :: 0 <= i < 100 ==> ValidRecordDraws(recordDraws[i])
      requires |pointDraws| == 30 && forall i :: 0 <= i < 30 ==> ValidPointDraws(pointDraws[i])
      modifies this
      ensures old(Valid()) ==> Valid()
      ensures campaignData == GenerateCampaignData(100, today, recordDraws)
      ensures chartData == GenerateChartData(30, today, pointDraws)
      ensures channelData == GenerateChannelData()
      ensures |campaignData| == 100 && |chartData| == 30 && |channelData| == 6
      ensures !loading && pendingRefreshes == old(pendingRefreshes) - 1
      ensures intervalActive == old(intervalActive)
    {
      campaignData := GenerateCampaignData(100, today, recordDraws);
      chartData := GenerateChartData(30, today, pointDraws);
      channelData := GenerateChannelData();
      loading := false;
      pendingRefreshes := pendingRefreshes - 1;
    }

    /** The interval fires: every campaign record is perturbed. */
    method LiveTick(draws: seq<TickDraws>)
      requires intervalActive
      requires ValidTick(|campaignData|, draws)
      modifies this
      ensures campaignData == Tick(old(campaignData), draws)
      ensures chartData == old(chartData) && channelData == old(channelData)
      ensures loading == old(loading) && pendingRefreshes == old(pendingRefreshes) && intervalActive
    {
      campaignData := Tick(campaignData, draws);
    }

    /** The effect's cleanup: clearInterval. A pending timeout still fires. */
    method Teardown()
      modifies this
      ensures !intervalActive
      ensures campaignData == old(campaignData) && chartData == old(chartData) && channelData == old(channelData)
      ensures loading == old(loading) && pendingRefreshes == old(pendingRefreshes)
    {
      intervalActive := false;
    }
  }

  /** From mount to the first data: the hook shows the loading state until
      the timeout fires, and then holds 100 plausible records, 30 chart
      points for the last 30 days and the six channel shares, and is no
      longer loading. */
  method FirstLoad(today: Day, recordDraws: seq<RecordDraws>, pointDraws: seq<PointDraws>)
      returns (campaigns: seq<MetricData>, chart: seq<ChartData>, channels: nat, loadingBefore: bool, loadingAfter: bool)
    requires |recordDraws| == 100 && forall i :: 0 <= i < 100 ==> ValidRecordDraws(recordDraws[i])
    requires |pointDraws| == 30 && forall i :: 0 <= i < 30 ==> ValidPointDraws(pointDraws[i])
    ensures loadingBefore && !loadingAfter
    ensures |campaigns| == 100 && |chart| == 30 && channels == 6
    ensures forall i :: 0 <= i < 100 ==> campaigns[i].id == i + 1 && Plausible(campaigns[i], today)
    ensures forall i :: 0 <= i < 30 ==> chart[i].date == today - (29 - i) && 9500 <= chart[i].revenue <= 20499
  {
    var store := new DataStore();
    store.Mount();
    loadingBefore := store.loading;
    store.CompleteRefresh(today, recordDraws, pointDraws);
    campaigns := store.campaignData;
    chart := store.chartData;
    channels := |store.channelData|;
    loadingAfter := store.loading;
    GenerateCampaignDataSpec(100, today, recordDraws);
    GenerateChartDataSpec(30, today, pointDraws);
  }
}
