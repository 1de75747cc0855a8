/**
 * The dashboard's read model over the ticket list: the date-window filter,
 * revenue and ticket count, profit per weekday over the last seven days, and
 * the five most frequent device models and issue types. The clock is the
 * parameter `now` (milliseconds); the calendar day and the weekday of a
 * timestamp are the functions `dayOf` and `weekday`; `tr` stands for the
 * translation lookup.
 */
module Dashboard {
  import opened Wrappers
  import opened Types
  import opened Seqs
  import opened Ranking

  /** `24 * 60 * 60 * 1000`. */
  const DayMs: int := 86400000

  function WeekAgo(now: Time): Time { now - 7 * DayMs }
  function MonthAgo(now: Time): Time { now - 30 * DayMs }

  type Weekday = d: int | 0 <= d < 7

  // ----- date window -----

  function CreatedSince(start: Time): Repair -> bool { (r: Repair) => r.createdAt >= start }
  function CreatedOn(dayOf: Time -> int, now: Time): Repair -> bool { (r: Repair) => dayOf(r.createdAt) == dayOf(now) }

  /**
   * The `dateFilter` step of `calculateStats`: "today" keeps the tickets
   * created on the current calendar day, "week" and "month" those created in
   * the last 7 or 30 days (no upper bound), and any other value keeps all.
   */
  function DateFiltered(repairs: seq<Repair>, filter: string, now: Time, dayOf: Time -> int): (r: seq<Repair>)
    ensures filter == "today" ==> Keeps(repairs, r, CreatedOn(dayOf, now))
    ensures filter == "today" ==> forall x :: x in r <==> x in repairs && dayOf(x.createdAt) == dayOf(now)
    ensures filter == "week" ==> Keeps(repairs, r, CreatedSince(WeekAgo(now)))
    ensures filter == "week" ==> forall x :: x in r <==> x in repairs && x.createdAt >= now - 604800000
    ensures filter == "month" ==> Keeps(repairs, r, CreatedSince(MonthAgo(now)))
    ensures filter == "month" ==> forall x :: x in r <==> x in repairs && x.createdAt >= now - 2592000000
    ensures filter != "today" && filter != "week" && filter != "month" ==> r == repairs
  {
    if filter == "today" then
      FilterKeeps(repairs, CreatedOn(dayOf, now));
      Filter(repairs, CreatedOn(dayOf, now))
    else if filter == "week" then
      FilterKeeps(repairs, CreatedSince(WeekAgo(now)));
      Filter(repairs, CreatedSince(WeekAgo(now)))
    else if filter == "month" then
      FilterKeeps(repairs, CreatedSince(MonthAgo(now)));
      Filter(repairs, CreatedSince(MonthAgo(now)))
    else repairs
  }

  /** For the same clock, the week's tickets are exactly the month's tickets created in the last week. */
  lemma WeekWithinMonth(repairs: seq<Repair>, now: Time, dayOf: Time -> int)
    ensures DateFiltered(repairs, "week", now, dayOf)
         == Filter(DateFiltered(repairs, "month", now, dayOf), CreatedSince(WeekAgo(now)))
    ensures Subsequence(DateFiltered(repairs, "week", now, dayOf), DateFiltered(repairs, "month", now, dayOf))
  {
    var month := DateFiltered(repairs, "month", now, dayOf);
    FilterNarrow(repairs, CreatedSince(WeekAgo(now)), CreatedSince(MonthAgo(now)));
    FilterKeeps(month, CreatedSince(WeekAgo(now)));
  }

  // ----- revenue and count -----

  /**
   * The stat cards. Cost and net profit are kept in tenths: the source
   * weighs part prices by 0.7 and labour by 0.5, which is exact in tenths.
   */
  datatype Stats = Stats(totalRevenue: int, totalCostTenths: int, netProfitTenths: int, totalRepairs: nat)

  function TotalCost(r: Repair): int { r.ticket.totalCost }

  function PartCostTenths(p: RepairPart): int { 7 * p.quantityUsed * p.priceAtTime }

  /** One ticket's estimated cost in tenths: 70% of its parts at their recorded price plus half the labour. */
  function CostTenths(r: Repair): int { SumOf(r.parts, PartCostTenths) + 5 * r.ticket.laborCost }

  /** Quantities, prices and labour are never negative. */
  ghost predicate Priced(r: Repair) {
    && r.ticket.laborCost >= 0
    && forall i :: 0 <= i < |r.parts| ==> r.parts[i].quantityUsed >= 0 && r.parts[i].priceAtTime >= 0
  }

  lemma CostNonNegative(r: Repair)
    requires Priced(r)
    ensures CostTenths(r) >= 0
  {
    forall i | 0 <= i < |r.parts|
      ensures PartCostTenths(r.parts[i]) >= 0
    {
      var q, pr := r.parts[i].quantityUsed, r.parts[i].priceAtTime;
      assert q * pr >= 0;
    }
    NonNegativeSum(r.parts, PartCostTenths);
  }

  /**
   * `total_revenue`, `total_cost`, `net_profit` and `total_repairs` for the
   * filtered tickets: the net profit is the revenue less the cost, and both
   * sums are non-negative when every ticket is.
   */
  function CalculateStats(filtered: seq<Repair>): (r: Stats)
    ensures r.totalRepairs == |filtered|
    ensures r.totalRevenue == SumOf(filtered, TotalCost)
    ensures r.totalCostTenths == SumOf(filtered, CostTenths)
    ensures r.netProfitTenths == 10 * r.totalRevenue - r.totalCostTenths
    ensures (forall i :: 0 <= i < |filtered| ==> filtered[i].ticket.totalCost >= 0) ==> r.totalRevenue >= 0
    ensures (forall i :: 0 <= i < |filtered| ==> Priced(filtered[i])) ==> r.totalCostTenths >= 0
  {
    NonNegativeSum(filtered, TotalCost);
    PricedCostNonNegative(filtered);
    var revenue := SumOf(filtered, TotalCost);
    var cost := SumOf(filtered, CostTenths);
    Stats(revenue, cost, 10 * revenue - cost, |filtered|)
  }

  /**
   * The stats are additive: the stats of two lists of tickets put together
   * are the sums of their stats, and one ticket contributes its total as
   * revenue and its weighted parts and labour as cost.
   */
  lemma {:induction false} StatsAdditive(a: seq<Repair>, b: seq<Repair>)
    ensures CalculateStats(a + b) == Stats(
      CalculateStats(a).totalRevenue + CalculateStats(b).totalRevenue,
      CalculateStats(a).totalCostTenths + CalculateStats(b).totalCostTenths,
      CalculateStats(a).netProfitTenths + CalculateStats(b).netProfitTenths,
      CalculateStats(a).totalRepairs + CalculateStats(b).totalRepairs)
    ensures |a| == 1 ==> CalculateStats(a) == Stats(a[0].ticket.totalCost, CostTenths(a[0]),
      10 * a[0].ticket.totalCost - CostTenths(a[0]), 1)
  {
    SumOfAppend(a, b, TotalCost);
    SumOfAppend(a, b, CostTenths);
    if |a| == 1 {
      assert a[..0] == [];
    }
  }

  lemma PricedCostNonNegative(filtered: seq<Repair>)
    ensures (forall i :: 0 <= i < |filtered| ==> Priced(filtered[i])) ==> SumOf(filtered, CostTenths) >= 0
  {
    if forall i :: 0 <= i < |filtered| ==> Priced(filtered[i]) {
      forall i | 0 <= i < |filtered|
        ensures CostTenths(filtered[i]) >= 0
      {
        CostNonNegative(filtered[i]);
      }
      NonNegativeSum(filtered, CostTenths);
    }
  }

  lemma {:induction false} NonNegativeSum<T>(s: seq<T>, f: T -> int)
    ensures (forall i :: 0 <= i < |s| ==> f(s[i]) >= 0) ==> SumOf(s, f) >= 0
    decreases |s|
  {
    if |s| > 0 {
      NonNegativeSum(s[..|s| - 1], f);
    }
  }

  /**
   * With non-negative ticket totals, the week's revenue never exceeds the
   * month's, and the week never counts more tickets.
   */
  lemma WeekRevenueWithinMonth(repairs: seq<Repair>, now: Time, dayOf: Time -> int)
    requires forall i :: 0 <= i < |repairs| ==> repairs[i].ticket.totalCost >= 0 && Priced(repairs[i])
    ensures var week := CalculateStats(DateFiltered(repairs, "week", now, dayOf));
      var month := CalculateStats(DateFiltered(repairs, "month", now, dayOf));
      && week.totalRevenue <= month.totalRevenue
      && week.totalCostTenths <= month.totalCostTenths
      && week.totalRepairs <= month.totalRepairs
  {
    var month := DateFiltered(repairs, "month", now, dayOf);
    WeekWithinMonth(repairs, now, dayOf);
    forall i | 0 <= i < |month|
      ensures TotalCost(month[i]) >= 0 && CostTenths(month[i]) >= 0
    {
      assert month[i] in repairs;
      CostNonNegative(month[i]);
    }
    SumOfFilterLe(month, CreatedSince(WeekAgo(now)), TotalCost);
    SumOfFilterLe(month, CreatedSince(WeekAgo(now)), CostTenths);
  }

  // ----- profit per weekday -----

  /** A ticket counts towards the weekly chart when it is completed and was created in the last seven days. */
  function Qualifies(now: Time): Repair -> bool {
    (r: Repair) => r.createdAt >= WeekAgo(now) && r.ticket.status == Completed
  }

  /** What one ticket adds to the bucket of weekday `d`. */
  function ProfitOn(now: Time, weekday: Time -> Weekday, d: Weekday): Repair -> int {
    (r: Repair) => if Qualifies(now)(r) && weekday(r.createdAt) == d then r.ticket.profit else 0
  }

  function Profit(r: Repair): int { r.ticket.profit }

  /** Reference for the weekly chart: bucket `d` is the profit of the qualifying tickets created on weekday `d`. */
  function WeekBuckets(repairs: seq<Repair>, now: Time, weekday: Time -> Weekday): (b: seq<int>)
    ensures |b| == 7
    ensures forall d: Weekday :: b[d] == SumOf(repairs, ProfitOn(now, weekday, d))
  {
    seq(7, (d: int) requires 0 <= d < 7 => SumOf(repairs, ProfitOn(now, weekday, d)))
  }

  /**
   * `calculateWeeklyProfits`: seven zeroed buckets, then one pass over the
   * unfiltered tickets adding each qualifying ticket's profit to the bucket
   * of its creation weekday.
   */
  method WeeklyProfits(repairs: seq<Repair>, now: Time, weekday: Time -> Weekday) returns (b: seq<int>)
    ensures b == WeekBuckets(repairs, now, weekday)
  {
    b := [0, 0, 0, 0, 0, 0, 0];
    var n := 0;
    while n < |repairs|
      invariant 0 <= n <= |repairs|
      invariant |b| == 7
      invariant forall d: Weekday :: b[d] == SumOf(repairs[..n], ProfitOn(now, weekday, d))
    {
      var r := repairs[n];
      assert repairs[..n + 1][..n] == repairs[..n];
      if r.createdAt >= WeekAgo(now) && r.ticket.status == Completed {
        var day := weekday(r.createdAt);
        b := b[day := b[day] + r.ticket.profit];
      }
      n := n + 1;
    }
    assert repairs[..n] == repairs;
  }

  /** The seven buckets add up to the profit of the qualifying tickets. */
  lemma {:induction false} BucketsTotal(repairs: seq<Repair>, now: Time, weekday: Time -> Weekday)
    ensures var b := WeekBuckets(repairs, now, weekday);
      b[0] + b[1] + b[2] + b[3] + b[4] + b[5] + b[6] == SumOf(Filter(repairs, Qualifies(now)), Profit)
    decreases |repairs|
  {
    SumOfFilter(repairs, Qualifies(now), Profit);
    if |repairs| > 0 {
      var init := repairs[..|repairs| - 1];
      BucketsTotal(init, now, weekday);
      SumOfFilter(init, Qualifies(now), Profit);
    }
  }

  /** Translation keys of the weekday names, Sunday first as `getDay` counts. */
  const DayKeys: seq<string> := ["days.sunday", "days.monday", "days.tuesday", "days.wednesday",
                                 "days.thursday", "days.friday", "days.saturday"]

  datatype DayProfit = DayProfit(name: string, profit: int)

  /** The chart rows: the translated day name next to its bucket. */
  function ProfitChart(b: seq<int>, tr: string -> string): (rows: seq<DayProfit>)
    requires |b| == 7
    ensures |rows| == 7
    ensures forall d :: 0 <= d < 7 ==> rows[d].name == tr(DayKeys[d]) && rows[d].profit == b[d]
  {
    seq(7, (d: int) requires 0 <= d < 7 => DayProfit(tr(DayKeys[d]), b[d]))
  }

  // ----- popular models and common issues -----

  /** `repair.model?.name || t('common.noData')`. */
  function ModelLabel(fallback: string): Repair -> string {
    (r: Repair) => if r.model.Some? && r.model.value.name != "" then r.model.value.name else fallback
  }

  /** `repair.issue_type || t('common.noData')`. */
  function IssueLabel(fallback: string): Repair -> string {
    (r: Repair) => if r.ticket.issueType != "" then r.ticket.issueType else fallback
  }

  function LabelIs(labelOf: Repair -> string, k: string): Repair -> bool { (r: Repair) => labelOf(r) == k }

  const Colors: seq<string> := ["#3B82F6", "#10B981", "#F59E0B", "#EF4444", "#8B5CF6"]

  datatype ModelSlice = ModelSlice(name: string, count: int, color: string)
  datatype IssueCount = IssueCount(issue: string, count: int)

  /**
   * The shared core of both charts: label every filtered ticket, tally the
   * labels, sort by count from high to low and keep the first five. Each
   * entry's count is the number of tickets carrying its label.
   */
  function Chart(filtered: seq<Repair>, labelOf: Repair -> string): (r: seq<Entry>)
    ensures |r| <= 5
    ensures DistinctKeys(r) && NonIncreasing(r)
    ensures forall i :: 0 <= i < |r| ==> r[i].count == |Filter(filtered, LabelIs(labelOf, r[i].key))| >= 1
  {
    var keys := Mapped(filtered, labelOf);
    RankEntries(keys);
    forall i | 0 <= i < |Rank(keys)|
      ensures Rank(keys)[i].count == |Filter(filtered, LabelIs(labelOf, Rank(keys)[i].key))|
    {
      OccurrencesMapped(filtered, labelOf, Rank(keys)[i].key, LabelIs(labelOf, Rank(keys)[i].key));
    }
    Rank(keys)
  }

  /**
   * Every ticket's label competes: a label carried by some filtered ticket
   * that is not charted means five labels are charted, each carried by at
   * least as many tickets.
   */
  lemma ChartDominates(filtered: seq<Repair>, labelOf: Repair -> string, i: int)
    requires 0 <= i < |filtered|
    requires forall j :: 0 <= j < |Chart(filtered, labelOf)| ==> Chart(filtered, labelOf)[j].key != labelOf(filtered[i])
    ensures |Chart(filtered, labelOf)| == 5
    ensures forall j :: 0 <= j < 5 ==>
      |Filter(filtered, LabelIs(labelOf, labelOf(filtered[i])))| <= Chart(filtered, labelOf)[j].count
  {
    var k := labelOf(filtered[i]);
    var keys := Mapped(filtered, labelOf);
    var c := Chart(filtered, labelOf);
    assert c == Rank(keys);
    assert keys[i] == k;
    assert k in keys;
    RankDominates(keys, k);
    OccurrencesMapped(filtered, labelOf, k, LabelIs(labelOf, k));
  }

  /**
   * `calculatePopularModels`: the five most frequent model labels among the
   * filtered tickets, with the i-th slice colored `colors[i % 5]`.
   */
  function PopularModels(filtered: seq<Repair>, fallback: string): (r: seq<ModelSlice>)
    ensures |r| == |Chart(filtered, ModelLabel(fallback))|
    ensures forall i :: 0 <= i < |r| ==> r[i].color == Colors[i % 5]
    ensures forall i :: 0 <= i < |r| ==>
      r[i].name == Chart(filtered, ModelLabel(fallback))[i].key && r[i].count == Chart(filtered, ModelLabel(fallback))[i].count
  {
    Slices(Chart(filtered, ModelLabel(fallback)))
  }

  /** Pie-chart slices for ranked entries, coloured in rank order. */
  function Slices(c: seq<Entry>): (r: seq<ModelSlice>)
    ensures |r| == |c|
    ensures forall i :: 0 <= i < |r| ==> r[i] == ModelSlice(c[i].key, c[i].count, Colors[i % 5])
  {
    seq(|c|, i requires 0 <= i < |c| => ModelSlice(c[i].key, c[i].count, Colors[i % 5]))
  }

  /** `calculateCommonIssues`: the five most frequent issue labels among the filtered tickets. */
  function CommonIssues(filtered: seq<Repair>, fallback: string): (r: seq<IssueCount>)
    ensures |r| == |Chart(filtered, IssueLabel(fallback))|
    ensures forall i :: 0 <= i < |r| ==>
      r[i].issue == Chart(filtered, IssueLabel(fallback))[i].key && r[i].count == Chart(filtered, IssueLabel(fallback))[i].count
  {
    IssueCounts(Chart(filtered, IssueLabel(fallback)))
  }

  /** Bar-chart rows for ranked entries. */
  function IssueCounts(c: seq<Entry>): (r: seq<IssueCount>)
    ensures |r| == |c|
    ensures forall i :: 0 <= i < |r| ==> r[i] == IssueCount(c[i].key, c[i].count)
  {
    seq(|c|, i requires 0 <= i < |c| => IssueCount(c[i].key, c[i].count))
  }

  // ----- recomputation -----

  datatype View = View(stats: Stats, profitData: seq<DayProfit>, popularModels: seq<ModelSlice>, commonIssues: seq<IssueCount>)

  /**
   * `calculateStats`: every panel computed for one clock reading. The date
   * filter narrows the stat cards and the two rankings but not the weekly
   * chart, which always looks at the whole list.
   */
  function Compute(repairs: seq<Repair>, filter: string, now: Time, dayOf: Time -> int,
                   weekday: Time -> Weekday, tr: string -> string): (v: View)
    ensures v.stats.totalRepairs == |DateFiltered(repairs, filter, now, dayOf)|
    ensures v.stats.totalRevenue == SumOf(DateFiltered(repairs, filter, now, dayOf), TotalCost)
    ensures v.stats.totalCostTenths == SumOf(DateFiltered(repairs, filter, now, dayOf), CostTenths)
    ensures v.stats.netProfitTenths == 10 * v.stats.totalRevenue - v.stats.totalCostTenths
    ensures |v.profitData| == 7
    ensures forall d :: 0 <= d < 7 ==>
      v.profitData[d].name == tr(DayKeys[d]) && v.profitData[d].profit == WeekBuckets(repairs, now, weekday)[d]
    ensures v.popularModels == PopularModels(DateFiltered(repairs, filter, now, dayOf), tr("common.noData"))
    ensures v.commonIssues == CommonIssues(DateFiltered(repairs, filter, now, dayOf), tr("common.noData"))
    ensures |v.popularModels| <= 5 && |v.commonIssues| <= 5
    ensures forall i :: 0 <= i < |v.popularModels| ==>
      v.popularModels[i].count
        == |Filter(DateFiltered(repairs, filter, now, dayOf), LabelIs(ModelLabel(tr("common.noData")), v.popularModels[i].name))|
    ensures forall i :: 0 <= i < |v.commonIssues| ==>
      v.commonIssues[i].count
        == |Filter(DateFiltered(repairs, filter, now, dayOf), LabelIs(IssueLabel(tr("common.noData")), v.commonIssues[i].issue))|
  {
    var filtered := DateFiltered(repairs, filter, now, dayOf);
    View(CalculateStats(filtered),
         ProfitChart(WeekBuckets(repairs, now, weekday), tr),
         PopularModels(filtered, tr("common.noData")),
         CommonIssues(filtered, tr("common.noData")))
  }

  /**
   * The effect that recomputes the panels: they are recomputed only when
   * loading has finished and there is at least one ticket; otherwise the
   * previous panels stay on screen, even when the last ticket was deleted.
   */
  function Refresh(shown: View, loading: bool, repairs: seq<Repair>, filter: string, now: Time,
                   dayOf: Time -> int, weekday: Time -> Weekday, tr: string -> string): (v: View)
    ensures loading || |repairs| == 0 ==> v == shown
    ensures !loading && |repairs| > 0 ==> v == Compute(repairs, filter, now, dayOf, weekday, tr)
    ensures !loading && |repairs| > 0 ==> v.stats.totalRepairs == |DateFiltered(repairs, filter, now, dayOf)|
  {
    if !loading && |repairs| > 0 then Compute(repairs, filter, now, dayOf, weekday, tr) else shown
  }

  /**
   * Re-running the effect with unchanged inputs changes nothing, whatever
   * was shown before: the panels depend only on the tickets, the filter and
   * the clock once loading has finished.
   */
  lemma RefreshIdempotent(shown: View, other: View, loading: bool, repairs: seq<Repair>, filter: string, now: Time,
                          dayOf: Time -> int, weekday: Time -> Weekday, tr: string -> string)
    ensures var once := Refresh(shown, loading, repairs, filter, now, dayOf, weekday, tr);
      Refresh(once, loading, repairs, filter, now, dayOf, weekday, tr) == once
    ensures !loading && |repairs| > 0 ==>
      Refresh(shown, loading, repairs, filter, now, dayOf, weekday, tr)
        == Refresh(other, loading, repairs, filter, now, dayOf, weekday, tr)
  {
  }

  /**
   * Switching the date filter between week and month: with non-negative
   * amounts the week's stat cards never exceed the month's, and the weekly
   * chart is the same for both.
   */
  lemma ComputeWeekWithinMonth(repairs: seq<Repair>, now: Time, dayOf: Time -> int,
                               weekday: Time -> Weekday, tr: string -> string)
    requires forall i :: 0 <= i < |repairs| ==> repairs[i].ticket.totalCost >= 0 && Priced(repairs[i])
    ensures var week := Compute(repairs, "week", now, dayOf, weekday, tr);
      var month := Compute(repairs, "month", now, dayOf, weekday, tr);
      && week.stats.totalRevenue <= month.stats.totalRevenue
      && week.stats.totalCostTenths <= month.stats.totalCostTenths
      && week.stats.totalRepairs <= month.stats.totalRepairs
      && week.profitData == month.profitData
  {
    WeekRevenueWithinMonth(repairs, now, dayOf);
  }

  /** Under any filter other than today, week or month, every ticket is counted and ranked. */
  lemma ComputeAllTime(repairs: seq<Repair>, filter: string, now: Time, dayOf: Time -> int,
                       weekday: Time -> Weekday, tr: string -> string)
    requires filter != "today" && filter != "week" && filter != "month"
    ensures var v := Compute(repairs, filter, now, dayOf, weekday, tr);
      && v.stats == CalculateStats(repairs)
      && v.stats.totalRepairs == |repairs|
      && v.popularModels == PopularModels(repairs, tr("common.noData"))
      && v.commonIssues == CommonIssues(repairs, tr("common.noData"))
  {
  }
}
