/**
 * The dashboard's top level: the date-range filter applied to every data set,
 * the oldest and newest valid instants over all data sets, and the one-time
 * default range of the last day.
 */
module App {
  import opened Wrappers
  import opened Records
  import opened Seqs
  import opened TimelineSlider

  /**
   * `itemDate >= startDate && itemDate <= endDate`: an invalid date compares
   * false with everything, so only valid dates can be in the window.
   */
  predicate InWindow(r: Row, startDate: int, endDate: int) {
    r.time.Some? && startDate <= r.time.value.ms <= endDate
  }

  /** `data.filter(...)` on the window. */
  function Window(data: seq<Row>, startDate: int, endDate: int): (r: seq<Row>)
    ensures IsSubsequence(r, data)
    ensures forall x :: x in r <==> x in data && InWindow(x, startDate, endDate)
    ensures forall x :: multiset(r)[x] == if InWindow(x, startDate, endDate) then multiset(data)[x] else 0
  {
    if |data| == 0 then []
    else
      assert data == [data[0]] + data[1..];
      var rest := Window(data[1..], startDate, endDate);
      SubsequenceSkipOrKeep(rest, data);
      if InWindow(data[0], startDate, endDate) then [data[0]] + rest else rest
  }

  /** A subsequence of the tail stays one of the whole, with or without the head. */
  lemma SubsequenceSkipOrKeep<T>(sub: seq<T>, xs: seq<T>)
    requires |xs| > 0 && IsSubsequence(sub, xs[1..])
    ensures IsSubsequence(sub, xs) && IsSubsequence([xs[0]] + sub, xs)
  {
    SubsequenceSkip(sub, xs);
    assert ([xs[0]] + sub)[1..] == sub;
  }

  /**
   * `filterDataByDateRange`: the data unchanged when a bound is missing or
   * the data is empty; otherwise exactly the items inside the window, in order.
   */
  function FilterDataByDateRange(data: seq<Row>, startDate: Option<int>, endDate: Option<int>): (r: seq<Row>)
    ensures startDate.None? || endDate.None? || |data| == 0 ==> r == data
    ensures IsSubsequence(r, data)
    ensures startDate.Some? && endDate.Some? ==>
      forall x :: x in r <==> x in data && InWindow(x, startDate.value, endDate.value)
    ensures startDate.Some? && endDate.Some? ==>
      forall x :: multiset(r)[x] == if InWindow(x, startDate.value, endDate.value) then multiset(data)[x] else 0
  {
    if startDate.None? || endDate.None? || |data| == 0 then
      SubsequenceRefl(data);
      data
    else Window(data, startDate.value, endDate.value)
  }

  lemma {:induction false} SubsequenceRefl<T>(xs: seq<T>)
    ensures IsSubsequence(xs, xs)
    decreases |xs|
  {
    if |xs| > 0 {
      SubsequenceRefl(xs[1..]);
    }
  }

  /** The valid instants of `rows`, in order: `map(new Date)` then drop `NaN`. */
  function ValidDates(rows: seq<Row>): (ds: seq<int>)
    ensures forall d :: d in ds <==> exists r :: r in rows && r.time.Some? && r.time.value.ms == d
  {
    if |rows| == 0 then []
    else
      var rest := ValidDates(rows[1..]);
      assert forall r :: r in rows <==> r == rows[0] || r in rows[1..];
      (if rows[0].time.Some? then [rows[0].time.value.ms] else []) + rest
  }

  function MinOf(ds: seq<int>): (m: int)
    requires |ds| > 0
    ensures m in ds && forall d :: d in ds ==> m <= d
  {
    if |ds| == 1 then ds[0]
    else
      var m := MinOf(ds[1..]);
      assert forall d :: d in ds ==> d == ds[0] || d in ds[1..];
      if ds[0] <= m then ds[0] else m
  }

  function MaxOf(ds: seq<int>): (m: int)
    requires |ds| > 0
    ensures m in ds && forall d :: d in ds ==> d <= m
  {
    if |ds| == 1 then ds[0]
    else
      var m := MaxOf(ds[1..]);
      assert forall d :: d in ds ==> d == ds[0] || d in ds[1..];
      if ds[0] >= m then ds[0] else m
  }

  /**
   * `determineMinMaxDates` over the four data sets: both bounds missing when
   * no valid date exists; otherwise the oldest and the newest valid instant.
   */
  function DetermineMinMaxDates(status: seq<Row>, error: seq<Row>, input: seq<Row>, pattern: seq<Row>)
    : (r: (Option<int>, Option<int>))
    ensures var all := status + error + input + pattern;
      && (r.0.None? <==> forall x :: x in all ==> x.time.None?)
      && r.0.None? == r.1.None?
      && (r.0.Some? ==>
            && (exists x :: x in all && x.time.Some? && x.time.value.ms == r.0.value)
            && (exists x :: x in all && x.time.Some? && x.time.value.ms == r.1.value)
            && forall x :: x in all && x.time.Some? ==> r.0.value <= x.time.value.ms <= r.1.value)
  {
    var allDates := ValidDates(status + error + input + pattern);
    assert forall x :: x in status + error + input + pattern && x.time.Some? ==> x.time.value.ms in allDates;
    if |allDates| == 0 then (None, None)
    else (Some(MinOf(allDates)), Some(MaxOf(allDates)))
  }

  /** The dashboard's date range and the loader's one-time default. */
  class Dashboard {
    /** `dateRange` */
    var dateRange: DateRange
    /** `minMaxDates` */
    var minDate: Option<int>
    var maxDate: Option<int>
    /** `initialLoadRef.current` */
    var initialLoad: bool
    /**
     * The `dateRange` the loader's closure sees: the loading effect is
     * created once, at the first render, so this is always the initial one.
     */
    const loaderView: DateRange

    constructor()
      ensures dateRange == DateRange(None, None) && loaderView == DateRange(None, None)
      ensures minDate.None? && maxDate.None? && !initialLoad
    {
      dateRange := DateRange(None, None);
      loaderView := DateRange(None, None);
      minDate, maxDate := None, None;
      initialLoad := false;
    }

    /** `handleFilterChange` */
    method FilterChange(range: DateRange)
      modifies this
      ensures dateRange == range
      ensures minDate == old(minDate) && maxDate == old(maxDate) && initialLoad == old(initialLoad)
    {
      dateRange := range;
    }

    /**
     * One run of `loadAllData` on freshly loaded data sets, as written: the
     * bounds are recomputed; the first load that finds a newest instant sets
     * the flag and, when the range in the loader's view is incomplete, installs
     * the last day up to that instant.
     */
    method LoadAllData(status: seq<Row>, error: seq<Row>, input: seq<Row>, pattern: seq<Row>)
      modifies this
      ensures (minDate, maxDate) == DetermineMinMaxDates(status, error, input, pattern)
      ensures old(initialLoad) || maxDate.None? ==>
        initialLoad == old(initialLoad) && dateRange == old(dateRange)
      ensures !old(initialLoad) && maxDate.Some? ==> initialLoad
      ensures !old(initialLoad) && maxDate.Some? && (loaderView.start.None? || loaderView.end.None?) ==>
        dateRange == DateRange(Some(maxDate.value - DayMs), maxDate)
      ensures loaderView.start.Some? && loaderView.end.Some? ==> dateRange == old(dateRange)
    {
      var bounds := DetermineMinMaxDates(status, error, input, pattern);
      minDate, maxDate := bounds.0, bounds.1;
      if !initialLoad && maxDate.Some? {
        initialLoad := true;
        var endDate := maxDate.value;
        var startDate := endDate - DayMs;
        if loaderView.start.None? || loaderView.end.None? {
          dateRange := DateRange(Some(startDate), Some(endDate));
        }
      }
    }

    /** The same run as evidently intended: a range already chosen is kept. */
    method LoadAllDataIntended(status: seq<Row>, error: seq<Row>, input: seq<Row>, pattern: seq<Row>)
      modifies this
      ensures (minDate, maxDate) == DetermineMinMaxDates(status, error, input, pattern)
      ensures old(initialLoad) || maxDate.None? ==>
        initialLoad == old(initialLoad) && dateRange == old(dateRange)
      ensures !old(initialLoad) && maxDate.Some? ==> initialLoad
      ensures !old(initialLoad) && maxDate.Some? && (old(dateRange).start.None? || old(dateRange).end.None?) ==>
        dateRange == DateRange(Some(maxDate.value - DayMs), maxDate)
      ensures old(dateRange).start.Some? && old(dateRange).end.Some? ==> dateRange == old(dateRange)
    {
      var bounds := DetermineMinMaxDates(status, error, input, pattern);
      minDate, maxDate := bounds.0, bounds.1;
      if !initialLoad && maxDate.Some? {
        initialLoad := true;
        var endDate := maxDate.value;
        var startDate := endDate - DayMs;
        if dateRange.start.None? || dateRange.end.None? {
          dateRange := DateRange(Some(startDate), Some(endDate));
        }
      }
    }
  }

  /** One status row at instant `ms`. */
  function RowAt(ms: int): Row {
    Row([], Some(LocalTime(ms, 0, 4)))
  }

  /**
   * The default is installed once: a later load with newer data keeps the
   * range the user chose after the first load.
   */
  method DefaultInstalledOnce() returns (first: DateRange, later: DateRange)
    ensures first == DateRange(Some(0), Some(DayMs))
    ensures later == DateRange(Some(5), Some(10))
  {
    var d := new Dashboard();
    d.LoadAllData([RowAt(DayMs)], [], [], []);
    first := d.dateRange;
    d.FilterChange(DateRange(Some(5), Some(10)));
    d.LoadAllData([RowAt(3 * DayMs)], [], [], []);
    later := d.dateRange;
  }

  /** A range chosen before the first load is replaced by the default. */
  method EarlyChoiceOverwritten() returns (range: DateRange)
    ensures range == DateRange(Some(0), Some(DayMs))
  {
    var d := new Dashboard();
    d.FilterChange(DateRange(Some(5), Some(10)));
    d.LoadAllData([RowAt(DayMs)], [], [], []);
    range := d.dateRange;
  }

  /** With the intended check, the early choice survives the first load. */
  method EarlyChoiceKept() returns (range: DateRange)
    ensures range == DateRange(Some(5), Some(10))
  {
    var d := new Dashboard();
    d.FilterChange(DateRange(Some(5), Some(10)));
    d.LoadAllDataIntended([RowAt(DayMs)], [], [], []);
    range := d.dateRange;
  }
}
