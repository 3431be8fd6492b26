/**
 * The advanced metrics: error rate, throughput, error trend, the health score
 * built from them, the per-hour and per-weekday error histograms and the
 * weekday-by-hour heatmap with its error-type counts.
 */
module AdvancedMetrics {
  import opened Wrappers
  import opened Records
  import opened Seqs
  import opened DataProcessor
  import opened ErrorTypeUtils

  // ---------------------------------------------------------------------------
  // error rate

  /** `!statusStats.latestStatus || !statusStats.startStatus || !patternAnalysis` */
  predicate MissingStats(stats: StatusStatistics, analysis: Option<PatternAnalysis>) {
    stats.latest.None? || stats.start.None? || analysis.None?
  }

  /**
   * `calculateErrorRate(statusStats, patternAnalysis)`: recognised patterns per
   * archived file; 0 without statistics or without archived files.
   */
  function ErrorRate(stats: StatusStatistics, analysis: Option<PatternAnalysis>): (rate: real)
    ensures rate >= 0.0
    ensures MissingStats(stats, analysis) || stats.diffArchiv <= 0 ==> rate == 0.0
    ensures !MissingStats(stats, analysis) && stats.diffArchiv > 0 ==>
      rate * (stats.diffArchiv as real) == analysis.value.total as real
  {
    if MissingStats(stats, analysis) then 0.0
    else
      var totalArchived := if stats.diffArchiv > 0 then stats.diffArchiv else 0;
      var totalPatterns := analysis.value.total;
      if totalArchived == 0 then 0.0
      else totalPatterns as real / totalArchived as real
  }

  /** Over an analysis of pattern records, the rate counts one pattern per record. */
  lemma ErrorRateCountsRecords(stats: StatusStatistics, rows: seq<Row>)
    requires stats.latest.Some? && stats.start.Some? && stats.diffArchiv > 0
    ensures ErrorRate(stats, Some(PatternAnalysisOf(rows))) * (stats.diffArchiv as real) == |rows| as real
  {
    AnalysisTotal(rows);
  }

  lemma AnalysisTotal(rows: seq<Row>)
    ensures PatternAnalysisOf(rows).total == |rows|
  {
    PatternAnalysisTotals(rows);
  }

  // ---------------------------------------------------------------------------
  // throughput

  datatype Throughput = Throughput(hourly: real, daily: real, weekly: real, total: int)

  /** `(endTime - startTime) / (1000 * 60 * 60)` between the two snapshots. */
  function ElapsedHours(stats: StatusStatistics): real
    requires stats.latest.Some? && stats.start.Some?
  {
    (stats.latest.value.time - stats.start.value.time) as real / HourMs as real
  }

  /** A product of two non-negative reals is non-negative. */
  lemma MulNonneg(a: real, b: real)
    requires a >= 0.0 && b >= 0.0
    ensures a * b >= 0.0
  {
  }

  /** Dividing a count by at least one hour neither makes it negative nor larger. */
  lemma DivideByHours(total: real, hours: real)
    requires total >= 0.0 && hours >= 1.0
    ensures 0.0 <= total / hours <= total
  {
    var q := total / hours;
    assert q * hours == total;
    MulNonneg(total, hours - 1.0);
    assert total * hours - total == total * (hours - 1.0);
  }

  /**
   * `calculateThroughput(statusStats, inputData)`: archived files per hour over
   * the period, the period counted as at least one hour.
   */
  function ThroughputOf(stats: StatusStatistics, inputs: seq<Row>): (t: Throughput)
    ensures stats.latest.None? || stats.start.None? || |inputs| == 0 ==> t == Throughput(0.0, 0.0, 0.0, 0)
    ensures t.daily == 24.0 * t.hourly && t.weekly == 168.0 * t.hourly
    ensures 0.0 <= t.hourly <= t.total as real
    ensures stats.latest.Some? && stats.start.Some? && |inputs| > 0 ==>
      t.total == (if stats.diffArchiv > 0 then stats.diffArchiv else 0)
      && (ElapsedHours(stats) >= 1.0 ==> t.hourly * ElapsedHours(stats) == t.total as real)
      && (ElapsedHours(stats) < 1.0 ==> t.hourly == t.total as real)
  {
    if stats.latest.None? || stats.start.None? || |inputs| == 0 then Throughput(0.0, 0.0, 0.0, 0)
    else
      var totalProcessed := if stats.diffArchiv > 0 then stats.diffArchiv else 0;
      var elapsed := ElapsedHours(stats);
      var hoursDiff := if elapsed > 1.0 then elapsed else 1.0;
      var hourlyAvg := totalProcessed as real / hoursDiff;
      assert hourlyAvg * hoursDiff == totalProcessed as real;
      DivideByHours(totalProcessed as real, hoursDiff);
      Throughput(hourlyAvg, hourlyAvg * 24.0, hourlyAvg * 24.0 * 7.0, totalProcessed)
  }

  // ---------------------------------------------------------------------------
  // error trend

  datatype Trend = Trend(trend: real, description: string)

  /** The description bands of a trend value. */
  function TrendDescription(trend: real): string {
    if trend > 0.5 then "Stark steigend"
    else if trend > 0.1 then "Steigend"
    else if trend < -0.5 then "Stark fallend"
    else if trend < -0.1 then "Fallend"
    else "Stabil"
  }

  /**
   * `calculateErrorTrend(errorData)`: the records (sorted by time on a copy,
   * which does not change how many there are) are cut into halves at
   * floor(n/2), and the trend compares the sizes of the halves.
   */
  function ErrorTrend(errors: seq<Row>): (tr: Trend)
    ensures |errors| < 2 ==> tr == Trend(0.0, "Stabil")
    ensures tr.trend >= 0.0
    ensures |errors| >= 2 ==> (tr.trend == 0.0 <==> |errors| % 2 == 0)
    ensures |errors| >= 2 && |errors| % 2 == 1 ==> tr.trend * ((|errors| / 2) as real) == 1.0
    ensures tr.description == TrendDescription(tr.trend)
  {
    if |errors| < 2 then Trend(0.0, "Stabil")
    else
      var midpoint := |errors| / 2;
      var firstHalfCount := midpoint;
      var secondHalfCount := |errors| - midpoint;
      var trend := (secondHalfCount - firstHalfCount) as real / (if firstHalfCount > 1 then firstHalfCount else 1) as real;
      Trend(trend, TrendDescription(trend))
  }

  /** The reciprocal of a value between `lo` and `hi` lies between theirs. */
  lemma ReciprocalBetween(t: real, m: real, lo: real, hi: real)
    requires t >= 0.0 && t * m == 1.0 && 0.0 < lo <= m <= hi
    ensures t * lo <= 1.0 <= t * hi
  {
    MulNonneg(t, m - lo);
    MulNonneg(t, hi - m);
    assert t * (m - lo) == 1.0 - t * lo;
    assert t * (hi - m) == t * hi - 1.0;
  }

  /**
   * Because the halves are cut by count, the description depends on the number
   * of records only: it never reads as falling, 'Stark steigend' needs exactly
   * three records, 'Steigend' an odd number from 5 to 19, and everything else
   * is 'Stabil'.
   */
  lemma ErrorTrendDescriptions(errors: seq<Row>)
    ensures var d := ErrorTrend(errors).description;
      d != "Fallend" && d != "Stark fallend"
      && (d == "Stark steigend" <==> |errors| == 3)
      && (d == "Steigend" <==> |errors| % 2 == 1 && 5 <= |errors| <= 19)
      && (d == "Stabil" <==> |errors| % 2 == 0 || |errors| < 2 || |errors| >= 21)
  {
    var n := |errors|;
    if n >= 2 && n % 2 == 1 {
      var t := ErrorTrend(errors).trend;
      var m := (n / 2) as real;
      assert t * m == 1.0;
      if n == 3 {
        assert t == 1.0;
      } else if n <= 19 {
        assert 2.0 <= m <= 9.0;
        ReciprocalBetween(t, m, 2.0, 9.0);
      } else {
        assert m >= 10.0;
        ReciprocalBetween(t, m, 10.0, m);
      }
    }
  }

  // ---------------------------------------------------------------------------
  // system health

  datatype Health = Health(score: real, status: string, errorRate: real, throughput: Throughput,
                           errorTrend: Trend, fileInput: int)

  /** `x > 0 ? Math.min(x, cap) : 0`: a deduction capped at `cap`. */
  function Deduction(x: real, cap: real): (d: real)
    requires cap >= 0.0
    ensures 0.0 <= d <= cap
    ensures x <= 0.0 ==> d == 0.0
    ensures 0.0 < x <= cap ==> d == x
  {
    if x > 0.0 then (if x < cap then x else cap) else 0.0
  }

  /**
   * The health score: 100 less at most 40 points for the error rate, at most 30
   * for an hourly throughput below 10 and at most 30 for a rising trend.
   */
  function HealthScore(errorRate: real, hourly: real, trend: real): (score: real)
    ensures 0.0 <= score <= 100.0
    ensures errorRate <= 0.0 && hourly >= 10.0 && trend <= 0.0 ==> score == 100.0
    ensures errorRate >= 0.4 && hourly <= 0.0 && trend >= 3.0 ==> score == 0.0
  {
    100.0 - Deduction(errorRate * 100.0, 40.0) - Deduction((10.0 - hourly) * 3.0, 30.0) - Deduction(trend * 10.0, 30.0)
  }

  /** A higher error rate, a lower throughput or a steeper trend never raises the score. */
  lemma HealthScoreMonotone(r1: real, h1: real, t1: real, r2: real, h2: real, t2: real)
    requires r1 <= r2 && h1 >= h2 && t1 <= t2
    ensures HealthScore(r2, h2, t2) <= HealthScore(r1, h1, t1)
  {
    assert Deduction(r1 * 100.0, 40.0) <= Deduction(r2 * 100.0, 40.0);
    assert Deduction((10.0 - h1) * 3.0, 30.0) <= Deduction((10.0 - h2) * 3.0, 30.0);
    assert Deduction(t1 * 10.0, 30.0) <= Deduction(t2 * 10.0, 30.0);
  }

  /** The status band of a score. */
  function HealthStatus(score: real): string {
    if score >= 90.0 then "Ausgezeichnet"
    else if score >= 75.0 then "Gut"
    else if score >= 50.0 then "Mittelm\U{00E4}\U{00DF}ig"
    else if score >= 25.0 then "Schlecht"
    else "Kritisch"
  }

  /**
   * `calculateSystemHealth(statusStats, errorData, inputData, patternAnalysis)`:
   * the score starts at 100 and loses each capped deduction in turn. The final
   * clamp to [0, 100] never changes it, since the caps add up to 100, so the
   * status band is read from the score that is returned.
   */
  method CalculateSystemHealth(stats: StatusStatistics, errors: seq<Row>, inputs: seq<Row>,
                               analysis: Option<PatternAnalysis>) returns (h: Health)
    ensures h.errorRate == ErrorRate(stats, analysis)
    ensures h.throughput == ThroughputOf(stats, inputs)
    ensures h.errorTrend == ErrorTrend(errors)
    ensures h.score == HealthScore(h.errorRate, h.throughput.hourly, h.errorTrend.trend)
    ensures h.status == HealthStatus(h.score)
    ensures h.fileInput == stats.diffInput
  {
    var errorRate := ErrorRate(stats, analysis);
    var throughput := ThroughputOf(stats, inputs);
    var errorTrend := ErrorTrend(errors);
    var healthScore := 100.0;
    if errorRate > 0.0 {
      healthScore := healthScore - (if errorRate * 100.0 < 40.0 then errorRate * 100.0 else 40.0);
    }
    if throughput.hourly < 10.0 {
      var x := (10.0 - throughput.hourly) * 3.0;
      healthScore := healthScore - (if x < 30.0 then x else 30.0);
    }
    if errorTrend.trend > 0.0 {
      healthScore := healthScore - (if errorTrend.trend * 10.0 < 30.0 then errorTrend.trend * 10.0 else 30.0);
    }
    var healthStatus := HealthStatus(healthScore);
    var fileInput := if stats.diffInput != 0 then stats.diffInput else 0;
    var score := if healthScore > 100.0 then 100.0 else healthScore;
    score := if score < 0.0 then 0.0 else score;
    h := Health(score, healthStatus, errorRate, throughput, errorTrend, fileInput);
  }

  // ---------------------------------------------------------------------------
  // histograms

  /** The bucket of a row for the hour histogram; an invalid date has none. */
  function HourSlot(r: Row): Option<int> {
    match r.time
    case None => None
    case Some(t) => Some(t.hour)
  }

  /** The bucket of a row for the weekday histogram (0 = Sunday). */
  function DaySlot(r: Row): Option<int> {
    match r.time
    case None => None
    case Some(t) => Some(t.weekday)
  }

  /** The heatmap cell of a row, numbered weekday * 24 + hour. */
  function CellSlot(r: Row): Option<int> {
    match r.time
    case None => None
    case Some(t) => Some(t.weekday * 24 + t.hour)
  }

  /** How many rows fall into bucket `b`. */
  function Tally(xs: seq<Row>, slot: Row -> Option<int>, b: int): nat {
    if |xs| == 0 then 0
    else Tally(xs[..|xs| - 1], slot, b) + (if slot(xs[|xs| - 1]) == Some(b) then 1 else 0)
  }

  /** The sum of the first `n` buckets. */
  function TallySum(xs: seq<Row>, slot: Row -> Option<int>, n: nat): nat {
    if n == 0 then 0 else TallySum(xs, slot, n - 1) + Tally(xs, slot, n - 1)
  }

  /** The number of rows with a valid date. */
  function TimedCount(xs: seq<Row>): (c: nat)
    ensures c <= |xs|
    ensures AllTimed(xs) ==> c == |xs|
  {
    if |xs| == 0 then 0
    else TimedCount(xs[..|xs| - 1]) + (if xs[|xs| - 1].time.Some? then 1 else 0)
  }

  predicate AllWellFormed(xs: seq<Row>) {
    forall i :: 0 <= i < |xs| ==> WellFormedRow(xs[i])
  }

  /** `slot` gives a bucket below `n` to exactly the rows with a valid date. */
  predicate SlotsWithin(xs: seq<Row>, slot: Row -> Option<int>, n: nat) {
    forall i :: 0 <= i < |xs| ==>
      (slot(xs[i]).Some? <==> xs[i].time.Some?) && (slot(xs[i]).Some? ==> 0 <= slot(xs[i]).value < n)
  }

  lemma {:induction false} TallySumStep(xs: seq<Row>, x: Row, slot: Row -> Option<int>, n: nat)
    ensures TallySum(xs + [x], slot, n) ==
      TallySum(xs, slot, n) + (if slot(x).Some? && 0 <= slot(x).value < n then 1 else 0)
    decreases n
  {
    assert (xs + [x])[..|xs|] == xs;
    if n > 0 {
      TallySumStep(xs, x, slot, n - 1);
    }
  }

  /** The buckets together hold every row with a valid date, once. */
  lemma {:induction false} TallyTotal(xs: seq<Row>, slot: Row -> Option<int>, n: nat)
    requires SlotsWithin(xs, slot, n)
    ensures TallySum(xs, slot, n) == TimedCount(xs)
    decreases |xs|
  {
    if |xs| == 0 {
      TallySumEmpty(slot, n);
    } else {
      var init := xs[..|xs| - 1];
      assert xs == init + [xs[|xs| - 1]];
      TallyTotal(init, slot, n);
      TallySumStep(init, xs[|xs| - 1], slot, n);
    }
  }

  lemma {:induction false} TallySumEmpty(slot: Row -> Option<int>, n: nat)
    ensures TallySum([], slot, n) == 0
    decreases n
  {
    if n > 0 {
      TallySumEmpty(slot, n - 1);
    }
  }

  /**
   * The shared loop of `analyzeErrorsByHour` and `analyzeErrorsByDay`: an array
   * of `n` zeros, one increment per row in the row's bucket. A row with an
   * invalid date indexes the array with NaN, which touches no element.
   */
  method Histogram(rows: seq<Row>, slot: Row -> Option<int>, n: nat) returns (counts: array<nat>)
    requires forall i :: 0 <= i < |rows| && slot(rows[i]).Some? ==> 0 <= slot(rows[i]).value < n
    ensures fresh(counts) && counts.Length == n
    ensures forall b :: 0 <= b < n ==> counts[b] == Tally(rows, slot, b)
  {
    counts := new nat[n](_ => 0);
    var i := 0;
    while i < |rows|
      invariant 0 <= i <= |rows|
      invariant forall b :: 0 <= b < n ==> counts[b] == Tally(rows[..i], slot, b)
    {
      assert rows[..i + 1][..i] == rows[..i];
      if slot(rows[i]).Some? {
        var b := slot(rows[i]).value;
        counts[b] := counts[b] + 1;
      }
      i := i + 1;
    }
    assert rows[..i] == rows;
  }

  /** `analyzeErrorsByHour(errorData)`: 24 hour buckets. */
  method AnalyzeErrorsByHour(rows: seq<Row>) returns (hourly: array<nat>)
    requires AllWellFormed(rows)
    ensures fresh(hourly) && hourly.Length == 24
    ensures forall h :: 0 <= h < 24 ==> hourly[h] == Tally(rows, HourSlot, h)
  {
    hourly := Histogram(rows, HourSlot, 24);
  }

  /** `analyzeErrorsByDay(errorData)`: 7 weekday buckets, Sunday first. */
  method AnalyzeErrorsByDay(rows: seq<Row>) returns (daily: array<nat>)
    requires AllWellFormed(rows)
    ensures fresh(daily) && daily.Length == 7
    ensures forall d :: 0 <= d < 7 ==> daily[d] == Tally(rows, DaySlot, d)
  {
    daily := Histogram(rows, DaySlot, 7);
  }

  /** The hour buckets add up to the records with a valid date: all of them when every date is valid. */
  lemma ErrorsByHourTotal(rows: seq<Row>)
    requires AllWellFormed(rows)
    ensures TallySum(rows, HourSlot, 24) == TimedCount(rows)
    ensures AllTimed(rows) ==> TallySum(rows, HourSlot, 24) == |rows|
  {
    TallyTotal(rows, HourSlot, 24);
  }

  /** The weekday buckets add up to the records with a valid date. */
  lemma ErrorsByDayTotal(rows: seq<Row>)
    requires AllWellFormed(rows)
    ensures TallySum(rows, DaySlot, 7) == TimedCount(rows)
    ensures AllTimed(rows) ==> TallySum(rows, DaySlot, 7) == |rows|
  {
    TallyTotal(rows, DaySlot, 7);
  }

  // ---------------------------------------------------------------------------
  // heatmap

  /** A dictionary of counts in key insertion order: `errorTypeCounts`. */
  type Counter = seq<(string, nat)>

  /** `counts[k] = (counts[k] || 0) + 1` */
  function Bump(cs: Counter, k: string): Counter {
    if |cs| == 0 then [(k, 1)]
    else if cs[0].0 == k then [(k, cs[0].1 + 1)] + cs[1..]
    else [cs[0]] + Bump(cs[1..], k)
  }

  /** The counter after bumping the key of every item, in order. */
  function CountBy<T>(xs: seq<T>, key: T -> string): Counter {
    if |xs| == 0 then [] else Bump(CountBy(xs[..|xs| - 1], key), key(xs[|xs| - 1]))
  }

  /** `counts[k] || 0` */
  function CountOf(cs: Counter, k: string): nat {
    if |cs| == 0 then 0 else if cs[0].0 == k then cs[0].1 else CountOf(cs[1..], k)
  }

  function CounterTotal(cs: Counter): nat {
    if |cs| == 0 then 0 else cs[0].1 + CounterTotal(cs[1..])
  }

  /** The counter of a dictionary of groups: each key with its group's size. */
  function Sizes<T>(gs: Groups<T>): (cs: Counter)
    ensures |cs| == |gs|
    ensures forall i :: 0 <= i < |gs| ==> cs[i] == (gs[i].0, |gs[i].1|)
  {
    if |gs| == 0 then [] else [(gs[0].0, |gs[0].1|)] + Sizes(gs[1..])
  }

  lemma {:induction false} BumpSizes<T>(gs: Groups<T>, k: string, x: T)
    ensures Bump(Sizes(gs), k) == Sizes(AddToGroup(gs, k, x))
    decreases |gs|
  {
    if |gs| > 0 && gs[0].0 != k {
      BumpSizes(gs[1..], k, x);
    }
  }

  /** Counting is grouping and taking the sizes: same keys, same order. */
  lemma {:induction false} CountByGroups<T>(xs: seq<T>, key: T -> string)
    ensures CountBy(xs, key) == Sizes(GroupBy(xs, key))
    decreases |xs|
  {
    if |xs| > 0 {
      var n := |xs| - 1;
      CountByGroups(xs[..n], key);
      BumpSizes(GroupBy(xs[..n], key), key(xs[n]), xs[n]);
    }
  }

  lemma {:induction false} SizesOf<T>(gs: Groups<T>, k: string)
    ensures CountOf(Sizes(gs), k) == |GroupOf(gs, k)|
    ensures Keys(Sizes(gs)) == Keys(gs)
    ensures CounterTotal(Sizes(gs)) == TotalSize(gs)
    decreases |gs|
  {
    if |gs| > 0 {
      SizesOf(gs[1..], k);
    }
  }

  /**
   * Every key is counted as often as it occurs, a key is listed exactly when
   * it occurs, no key is listed twice, and the counts add up to the number of
   * items.
   */
  lemma CountBySpec<T(!new)>(xs: seq<T>, key: T -> string, k: string)
    ensures CountOf(CountBy(xs, key), k) == |Filter(xs, key, k)|
    ensures k in Keys(CountBy(xs, key)) <==> exists i :: 0 <= i < |xs| && key(xs[i]) == k
    ensures forall i, j :: 0 <= i < j < |CountBy(xs, key)| ==> CountBy(xs, key)[i].0 != CountBy(xs, key)[j].0
    ensures CounterTotal(CountBy(xs, key)) == |xs|
  {
    CountByGroups(xs, key);
    SizesOf(GroupBy(xs, key), k);
    GroupByContents(xs, key, k);
    GroupByKeys(xs, key, k);
    GroupByShape(xs, key);
  }

  /** The sort key for "most counted first": `counts[b] - counts[a]`. */
  function MostCountedFirst(c: (string, nat)): real {
    -(c.1 as real)
  }

  /** `Object.keys(errorTypeCounts).sort(...)`: the types, most frequent first. */
  function RankTypes(cs: Counter): (ts: seq<string>)
    ensures |ts| == |cs|
  {
    Keys(SortBy(cs, MostCountedFirst))
  }

  /**
   * The ranked types are the counter's entries reordered, and their counts
   * never increase along the list.
   */
  lemma RankTypesOrder(cs: Counter)
    ensures var ranked := SortBy(cs, MostCountedFirst);
      multiset(ranked) == multiset(cs)
      && (forall i :: 0 <= i < |cs| ==> RankTypes(cs)[i] == ranked[i].0)
      && (forall i, j :: 0 <= i < j < |cs| ==> ranked[i].1 >= ranked[j].1)
  {
    SortByPermutes(cs, MostCountedFirst);
    SortBySorted(cs, MostCountedFirst);
    var ranked := SortBy(cs, MostCountedFirst);
    forall i, j | 0 <= i < j < |cs| ensures ranked[i].1 >= ranked[j].1 {
      assert MostCountedFirst(ranked[i]) <= MostCountedFirst(ranked[j]);
    }
  }

  /** The type a heatmap record is filed under: its normalised message. */
  function HeatmapType(r: Row): string {
    ExtractErrorType(Some(r.fields), "error_log")
  }

  /** The records the heatmap counts: all, or those of the selected type. */
  function HeatmapRows(rows: seq<Row>, selected: Option<string>): (xs: seq<Row>)
    ensures Falsy(selected) ==> xs == rows
    ensures !Falsy(selected) ==>
      forall x :: multiset(xs)[x] == if HeatmapType(x) == selected.value then multiset(rows)[x] else 0
    ensures forall x :: x in xs ==> x in rows
  {
    if Falsy(selected) then rows
    else
      FilterCounts(rows, HeatmapType, selected.value);
      Filter(rows, HeatmapType, selected.value)
  }

  /**
   * `createErrorHeatmap` ends with `InvalidDate` where the source throws: a
   * record with an invalid date makes `heatmap[NaN]` undefined, and the
   * increment of `undefined[NaN]` is a TypeError.
   */
  datatype HeatmapResult =
    | Heatmap(grid: array2<nat>, errorTypes: seq<string>, counts: Counter)
    | InvalidDate

  /** `createErrorHeatmap(errorData, selectedErrorType)` */
  method CreateErrorHeatmap(rows: seq<Row>, selected: Option<string>) returns (result: HeatmapResult)
    requires AllWellFormed(rows)
    ensures result.InvalidDate? <==> !AllTimed(HeatmapRows(rows, selected))
    ensures result.Heatmap? ==>
      fresh(result.grid) && result.grid.Length0 == 7 && result.grid.Length1 == 24
      && (forall d, h :: 0 <= d < 7 && 0 <= h < 24 ==>
            result.grid[d, h] == Tally(HeatmapRows(rows, selected), CellSlot, d * 24 + h))
      && result.counts == CountBy(HeatmapRows(rows, selected), HeatmapType)
      && result.errorTypes == RankTypes(result.counts)
  {
    var xs := HeatmapRows(rows, selected);
    assert AllWellFormed(xs) by {
      forall i | 0 <= i < |xs| ensures WellFormedRow(xs[i]) {
        assert xs[i] in rows;
      }
    }
    result := FillHeatmap(xs, HeatmapType);
  }

  /** The `forEach` over the counted records: one grid cell and one type count per record. */
  method FillHeatmap(xs: seq<Row>, key: Row -> string) returns (result: HeatmapResult)
    requires AllWellFormed(xs)
    ensures result.InvalidDate? <==> !AllTimed(xs)
    ensures result.Heatmap? ==>
      fresh(result.grid) && result.grid.Length0 == 7 && result.grid.Length1 == 24
      && (forall d, h :: 0 <= d < 7 && 0 <= h < 24 ==> result.grid[d, h] == Tally(xs, CellSlot, d * 24 + h))
      && result.counts == CountBy(xs, key)
      && result.errorTypes == RankTypes(result.counts)
  {
    var grid := new nat[7, 24]((d, h) => 0);
    var counts: Counter := [];
    var i := 0;
    while i < |xs|
      invariant 0 <= i <= |xs|
      invariant AllTimed(xs[..i])
      invariant forall d, h :: 0 <= d < 7 && 0 <= h < 24 ==> grid[d, h] == Tally(xs[..i], CellSlot, d * 24 + h)
      invariant counts == CountBy(xs[..i], key)
    {
      if xs[i].time.None? {
        return InvalidDate;
      }
      var t := xs[i].time.value;
      forall d, h | 0 <= d < 7 && 0 <= h < 24
        ensures Tally(xs[..i + 1], CellSlot, d * 24 + h)
          == grid[d, h] + (if d == t.weekday && h == t.hour then 1 else 0)
      {
        CellStep(xs, i, d, h);
      }
      TimedStep(xs, i);
      grid[t.weekday, t.hour] := grid[t.weekday, t.hour] + 1;
      counts := Bump(counts, key(xs[i]));
      i := i + 1;
    }
    assert xs[..i] == xs;
    result := Heatmap(grid, RankTypes(counts), counts);
  }

  /** A timed record extends a timed prefix, and the type counts by one. */
  lemma TimedStep(xs: seq<Row>, i: nat)
    requires i < |xs| && xs[i].time.Some? && AllTimed(xs[..i])
    ensures AllTimed(xs[..i + 1])
    ensures xs[..i + 1][..i] == xs[..i]
  {
    assert xs[..i + 1][..i] == xs[..i];
  }

  /** One more timed record adds one to its own cell and nothing to any other. */
  lemma CellStep(xs: seq<Row>, i: nat, d: int, h: int)
    requires i < |xs| && xs[i].time.Some? && WellFormedRow(xs[i])
    requires 0 <= d < 7 && 0 <= h < 24
    ensures Tally(xs[..i + 1], CellSlot, d * 24 + h) == Tally(xs[..i], CellSlot, d * 24 + h)
      + (if d == xs[i].time.value.weekday && h == xs[i].time.value.hour then 1 else 0)
  {
    TallyStep(xs, i, CellSlot);
    var t := xs[i].time.value;
    assert CellSlot(xs[i]) == Some(t.weekday * 24 + t.hour);
    if d != t.weekday {
      assert d * 24 + h != t.weekday * 24 + t.hour;
    }
  }

  lemma TallyStep(xs: seq<Row>, i: nat, slot: Row -> Option<int>)
    requires i < |xs|
    ensures forall b :: Tally(xs[..i + 1], slot, b) == Tally(xs[..i], slot, b) + (if slot(xs[i]) == Some(b) then 1 else 0)
  {
    assert xs[..i + 1][..i] == xs[..i];
  }

  /**
   * A heatmap that was built covers every counted record once: the 168 cells
   * add up to the number of records, and so do the type counts.
   */
  lemma HeatmapTotals(rows: seq<Row>, selected: Option<string>)
    requires AllWellFormed(rows) && AllTimed(HeatmapRows(rows, selected))
    ensures TallySum(HeatmapRows(rows, selected), CellSlot, 168) == |HeatmapRows(rows, selected)|
    ensures CounterTotal(CountBy(HeatmapRows(rows, selected), HeatmapType)) == |HeatmapRows(rows, selected)|
  {
    var xs := HeatmapRows(rows, selected);
    forall i | 0 <= i < |xs| ensures WellFormedRow(xs[i]) {
      assert xs[i] in rows;
    }
    TallyTotal(xs, CellSlot, 168);
    CountBySpec(xs, HeatmapType, "");
  }

  /** With a selected type every counted record is of that type. */
  lemma HeatmapSelects(rows: seq<Row>, k: string)
    requires k != ""
    ensures forall x :: x in HeatmapRows(rows, Some(k)) ==> HeatmapType(x) == k
    ensures CountOf(CountBy(HeatmapRows(rows, Some(k)), HeatmapType), k) == |HeatmapRows(rows, Some(k))|
  {
    var xs := HeatmapRows(rows, Some(k));
    CountBySpec(xs, HeatmapType, k);
    FilterKeepsAll(xs, HeatmapType, k);
  }
}
