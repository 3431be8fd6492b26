/**
 * The data processor: grouping of error records by message, file counts per
 * timestamp, the status differences over the selected period and the pattern
 * match summary.
 */
module DataProcessor {
  import opened Wrappers
  import opened Text
  import opened Records
  import opened Seqs

  // ---------------------------------------------------------------------------
  // grouping: a dictionary of arrays filled by `push` in a `forEach`

  /** A dictionary from key to the items pushed under it, in key insertion order. */
  type Groups<T> = seq<(string, seq<T>)>

  /** `groups[k] ??= []; groups[k].push(x)` */
  function AddToGroup<T>(gs: Groups<T>, k: string, x: T): (gs': Groups<T>)
    ensures |gs'| == |gs| || |gs'| == |gs| + 1
  {
    if |gs| == 0 then [(k, [x])]
    else if gs[0].0 == k then [(k, gs[0].1 + [x])] + gs[1..]
    else [gs[0]] + AddToGroup(gs[1..], k, x)
  }

  /** The dictionary after pushing every item of `xs` under its key, in order. */
  function GroupBy<T>(xs: seq<T>, key: T -> string): Groups<T>
  {
    if |xs| == 0 then []
    else AddToGroup(GroupBy(xs[..|xs| - 1], key), key(xs[|xs| - 1]), xs[|xs| - 1])
  }

  /** The items of `xs` whose key is `k`, in input order. */
  function Filter<T>(xs: seq<T>, key: T -> string, k: string): (ys: seq<T>)
    ensures |ys| <= |xs|
    ensures forall i :: 0 <= i < |ys| ==> key(ys[i]) == k
    ensures forall y :: y in ys ==> y in xs
  {
    if |xs| == 0 then []
    else Filter(xs[..|xs| - 1], key, k) + (if key(xs[|xs| - 1]) == k then [xs[|xs| - 1]] else [])
  }

  /** `filter` keeps every item with key `k` as often as it occurs, and no other item. */
  lemma {:induction false} FilterCounts<T(!new)>(xs: seq<T>, key: T -> string, k: string)
    ensures forall y :: multiset(Filter(xs, key, k))[y] == if key(y) == k then multiset(xs)[y] else 0
    decreases |xs|
  {
    if |xs| > 0 {
      var n := |xs| - 1;
      FilterCounts(xs[..n], key, k);
      assert xs == xs[..n] + [xs[n]];
    }
  }

  /** When every item has key `k`, filtering on `k` keeps the whole sequence. */
  lemma {:induction false} FilterKeepsAll<T(!new)>(xs: seq<T>, key: T -> string, k: string)
    requires forall i :: 0 <= i < |xs| ==> key(xs[i]) == k
    ensures Filter(xs, key, k) == xs
    decreases |xs|
  {
    if |xs| > 0 {
      var n := |xs| - 1;
      FilterKeepsAll(xs[..n], key, k);
      assert xs[..n] + [xs[n]] == xs;
    }
  }

  /** `groups[k] || []` */
  function GroupOf<T>(gs: Groups<T>, k: string): seq<T> {
    if |gs| == 0 then [] else if gs[0].0 == k then gs[0].1 else GroupOf(gs[1..], k)
  }

  /** Total number of items over all groups. */
  function TotalSize<T>(gs: Groups<T>): nat {
    if |gs| == 0 then 0 else |gs[0].1| + TotalSize(gs[1..])
  }

  predicate DistinctKeys<T>(gs: Groups<T>) {
    forall i, j :: 0 <= i < j < |gs| ==> gs[i].0 != gs[j].0
  }

  lemma {:induction false} AddToGroupOf<T>(gs: Groups<T>, k: string, x: T, q: string)
    ensures GroupOf(AddToGroup(gs, k, x), q) == GroupOf(gs, q) + (if q == k then [x] else [])
    decreases |gs|
  {
    if |gs| > 0 && gs[0].0 != k {
      AddToGroupOf(gs[1..], k, x, q);
    }
  }

  lemma {:induction false} AddToGroupSize<T>(gs: Groups<T>, k: string, x: T)
    ensures TotalSize(AddToGroup(gs, k, x)) == TotalSize(gs) + 1
    decreases |gs|
  {
    if |gs| > 0 && gs[0].0 != k {
      AddToGroupSize(gs[1..], k, x);
    }
  }

  lemma {:induction false} AddToGroupKeys<T>(gs: Groups<T>, k: string, x: T)
    ensures Keys(gs) <= Keys(AddToGroup(gs, k, x))
    ensures k in Keys(gs) ==> Keys(AddToGroup(gs, k, x)) == Keys(gs)
    ensures k !in Keys(gs) ==> Keys(AddToGroup(gs, k, x)) == Keys(gs) + [k]
    decreases |gs|
  {
    if |gs| > 0 && gs[0].0 != k {
      AddToGroupKeys(gs[1..], k, x);
      assert Keys(gs) == [gs[0].0] + Keys(gs[1..]);
      assert Keys(AddToGroup(gs, k, x)) == [gs[0].0] + Keys(AddToGroup(gs[1..], k, x));
    } else if |gs| > 0 {
      assert Keys(AddToGroup(gs, k, x)) == [k] + Keys(gs[1..]);
      assert Keys(gs) == [k] + Keys(gs[1..]);
    }
  }

  /** After adding under `k`, a key has a group exactly when it had one before or is `k`. */
  lemma AddToGroupHasKey<T>(gs: Groups<T>, k: string, x: T, q: string)
    ensures q in Keys(AddToGroup(gs, k, x)) <==> q in Keys(gs) || q == k
  {
    AddToGroupKeys(gs, k, x);
    if k !in Keys(gs) {
      assert Keys(AddToGroup(gs, k, x)) == Keys(gs) + [k];
    }
  }

  lemma AddToGroupDistinct<T>(gs: Groups<T>, k: string, x: T)
    requires DistinctKeys(gs)
    ensures DistinctKeys(AddToGroup(gs, k, x))
  {
    AddToGroupKeys(gs, k, x);
    var ks := Keys(AddToGroup(gs, k, x));
    assert forall i, j :: 0 <= i < j < |ks| ==> ks[i] != ks[j];
  }

  /** Every item lands in the group of its key, and groups keep input order. */
  lemma {:induction false} GroupByContents<T(!new)>(xs: seq<T>, key: T -> string, k: string)
    ensures GroupOf(GroupBy(xs, key), k) == Filter(xs, key, k)
    decreases |xs|
  {
    if |xs| > 0 {
      var n := |xs| - 1;
      GroupByContents(xs[..n], key, k);
      AddToGroupOf(GroupBy(xs[..n], key), key(xs[n]), xs[n], k);
    }
  }

  /** A key has a group exactly when some item carries it. */
  lemma {:induction false} GroupByKeys<T>(xs: seq<T>, key: T -> string, k: string)
    ensures k in Keys(GroupBy(xs, key)) <==> exists i :: 0 <= i < |xs| && key(xs[i]) == k
    decreases |xs|
  {
    if |xs| > 0 {
      var n := |xs| - 1;
      var front := xs[..n];
      GroupByKeys(front, key, k);
      AddToGroupHasKey(GroupBy(front, key), key(xs[n]), xs[n], k);
      if exists i :: 0 <= i < n && key(front[i]) == k {
        var i :| 0 <= i < n && key(front[i]) == k;
        assert front[i] == xs[i];
      }
      if exists i :: 0 <= i < |xs| && key(xs[i]) == k {
        var i :| 0 <= i < |xs| && key(xs[i]) == k;
        if i < n {
          assert front[i] == xs[i];
        }
      }
    }
  }

  /** No key has two groups, and the group sizes add up to the number of items. */
  lemma {:induction false} GroupByShape<T>(xs: seq<T>, key: T -> string)
    ensures DistinctKeys(GroupBy(xs, key))
    ensures TotalSize(GroupBy(xs, key)) == |xs|
    decreases |xs|
  {
    if |xs| > 0 {
      var n := |xs| - 1;
      GroupByShape(xs[..n], key);
      AddToGroupSize(GroupBy(xs[..n], key), key(xs[n]), xs[n]);
      AddToGroupDistinct(GroupBy(xs[..n], key), key(xs[n]), xs[n]);
    }
  }

  /** The `forEach` that builds the dictionary of groups. */
  method BuildGroups<T>(xs: seq<T>, key: T -> string) returns (groups: Groups<T>)
    ensures groups == GroupBy(xs, key)
  {
    groups := [];
    var i := 0;
    while i < |xs|
      invariant 0 <= i <= |xs|
      invariant groups == GroupBy(xs[..i], key)
    {
      assert xs[..i + 1][..i] == xs[..i];
      groups := AddToGroup(groups, key(xs[i]), xs[i]);
      i := i + 1;
    }
    assert xs[..i] == xs;
  }

  /** `error.Fehlermeldung || 'Unbekannt'` */
  function ErrorKey(r: Row): string {
    FieldOr(r.fields, "Fehlermeldung", "Unbekannt")
  }

  /** `groupErrorsByType(errorData)` */
  method GroupErrorsByType(errors: seq<Row>) returns (groups: Groups<Row>)
    ensures groups == GroupBy(errors, ErrorKey)
    ensures DistinctKeys(groups) && TotalSize(groups) == |errors|
    ensures forall k :: GroupOf(groups, k) == Filter(errors, ErrorKey, k)
  {
    groups := BuildGroups(errors, ErrorKey);
    GroupByShape(errors, ErrorKey);
    forall k ensures GroupOf(groups, k) == Filter(errors, ErrorKey, k) {
      GroupByContents(errors, ErrorKey, k);
    }
  }

  // ---------------------------------------------------------------------------
  // files per timestamp

  datatype FileCount = FileCount(timestamp: Option<string>, count: int, files: seq<string>)

  /** One entry of `countFilesByTimestamp`. */
  function FileCountOf(r: Record): (fc: FileCount)
    ensures fc.timestamp == Lookup(r, "Zeitpunkt")
  {
    FileCount(
      Lookup(r, "Zeitpunkt"),
      ParseIntOrZero(Lookup(r, "Anzahl")),
      if FieldOr(r, "Dateinamen", "") != "" then Split(Lookup(r, "Dateinamen").value, ',') else [])
  }

  /** `countFilesByTimestamp(inputData)`: one entry per record, in order. */
  function CountFilesByTimestamp(rs: seq<Record>): (out: seq<FileCount>)
    ensures |out| == |rs|
    ensures forall i :: 0 <= i < |rs| ==> out[i] == FileCountOf(rs[i])
  {
    if |rs| == 0 then [] else [FileCountOf(rs[0])] + CountFilesByTimestamp(rs[1..])
  }

  /**
   * The file names are the `Dateinamen` field cut at every ',': joining them
   * gives the field back, and there is one name more than commas; an absent
   * or empty field gives no names. A decimal `Anzahl` is read as its value, an
   * absent one as 0.
   */
  lemma FileCountFields(r: Record, n: nat)
    ensures var fc := FileCountOf(r);
      (Lookup(r, "Dateinamen").Some? && Lookup(r, "Dateinamen").value != "" ==>
        Join(fc.files, ',') == Lookup(r, "Dateinamen").value
        && |fc.files| == CountChar(Lookup(r, "Dateinamen").value, ',') + 1)
      && (Lookup(r, "Dateinamen").None? || Lookup(r, "Dateinamen").value == "" ==> fc.files == [])
      && (Lookup(r, "Anzahl") == Some(NatToString(n)) ==> fc.count == n)
      && (Lookup(r, "Anzahl").None? ==> fc.count == 0)
  {
    ParseIntNatToString(n);
    match Lookup(r, "Dateinamen")
    case Some(v) =>
      JoinSplit(v, ',');
      SplitParts(v, ',');
    case None =>
  }

  // ---------------------------------------------------------------------------
  // status statistics

  /** A status record copied with `Input`, `Archiv` and `Error` read as numbers. */
  datatype Snapshot = Snapshot(fields: Record, time: int, input: int, archiv: int, error: int)

  datatype StatusStatistics = StatusStatistics(
    latest: Option<Snapshot>, start: Option<Snapshot>,
    diffInput: int, diffArchiv: int, diffError: int)

  /** `Object.keys(r).find(key => key.startsWith(prefix))` */
  function FindKey(r: Record, prefix: string): (k: Option<string>)
    ensures k.Some? ==> StartsWith(k.value, prefix) && Lookup(r, k.value).Some?
    ensures k.None? <==> forall i :: 0 <= i < |r| ==> !StartsWith(r[i].0, prefix)
  {
    if |r| == 0 then None
    else if StartsWith(r[0].0, prefix) then Some(r[0].0)
    else FindKey(r[1..], prefix)
  }

  /** The error count: the first `Error...` column, without '\r', as an integer or 0. */
  function ErrorCount(r: Record): int {
    match FindKey(r, "Error")
    case None => 0
    case Some(k) => ParseInt(RemoveChar(Lookup(r, k).value, '\r')).GetOr(0)
  }

  function SnapshotOf(r: Row): Snapshot
    requires r.time.Some?
  {
    Snapshot(r.fields, Millis(r),
      ParseIntOrZero(Lookup(r.fields, "Input")),
      ParseIntOrZero(Lookup(r.fields, "Archiv")),
      ErrorCount(r.fields))
  }

  predicate AllTimed(rows: seq<Row>) {
    forall i :: 0 <= i < |rows| ==> rows[i].time.Some?
  }

  /** The sort key for "newest first": `new Date(b) - new Date(a)`. */
  function NewestFirst(r: Row): real {
    if r.time.Some? then -(r.time.value.ms as real) else 0.0
  }

  /** `calculateStatusStatistics(statusData)` */
  function StatusStatisticsOf(rows: seq<Row>): StatusStatistics
    requires AllTimed(rows)
  {
    if |rows| == 0 then StatusStatistics(None, None, 0, 0, 0)
    else
      var sorted := SortBy(rows, NewestFirst);
      SortByPermutes(rows, NewestFirst);
      assert sorted[0] in multiset(rows) && sorted[|rows| - 1] in multiset(rows);
      var latest := SnapshotOf(sorted[0]);
      var start := SnapshotOf(sorted[|rows| - 1]);
      StatusStatistics(Some(latest), Some(start),
        latest.input - start.input, latest.archiv - start.archiv, latest.error - start.error)
  }

  /** No status record gives no snapshots and zero differences. */
  lemma StatusStatisticsEmpty()
    ensures StatusStatisticsOf([]) == StatusStatistics(None, None, 0, 0, 0)
  {
  }

  /**
   * With records, the latest snapshot is one of them with the greatest time,
   * the start snapshot one with the least time, and each difference is latest
   * minus start.
   */
  lemma StatusStatisticsBounds(rows: seq<Row>)
    requires AllTimed(rows) && |rows| > 0
    ensures var s := StatusStatisticsOf(rows);
      s.latest.Some? && s.start.Some?
      && (exists i :: 0 <= i < |rows| && s.latest.value == SnapshotOf(rows[i]))
      && (exists i :: 0 <= i < |rows| && s.start.value == SnapshotOf(rows[i]))
      && (forall i :: 0 <= i < |rows| ==> s.start.value.time <= Millis(rows[i]) <= s.latest.value.time)
      && s.diffInput == s.latest.value.input - s.start.value.input
      && s.diffArchiv == s.latest.value.archiv - s.start.value.archiv
      && s.diffError == s.latest.value.error - s.start.value.error
  {
    var sorted := SortBy(rows, NewestFirst);
    SortByFirstIsMin(rows, NewestFirst);
    SortByLastIsMax(rows, NewestFirst);
    forall i | 0 <= i < |rows| ensures Millis(sorted[|rows| - 1]) <= Millis(rows[i]) <= Millis(sorted[0]) {
      assert rows[i] in multiset(rows);
    }
    var a :| 0 <= a < |rows| && rows[a] == sorted[0];
    var b :| 0 <= b < |rows| && rows[b] == sorted[|rows| - 1];
  }

  /** A single record is both ends of the period: every difference is zero. */
  lemma StatusStatisticsSingle(r: Row)
    requires r.time.Some?
    ensures var s := StatusStatisticsOf([r]);
      s.diffInput == 0 && s.diffArchiv == 0 && s.diffError == 0
  {
  }

  /**
   * An `Error` column named with a trailing '\r' (a CRLF header line) whose
   * value carries the '\r' too still reads as its number.
   */
  lemma ErrorCountIgnoresCr(n: nat)
    ensures ErrorCount([("Error\r", NatToString(n) + "\r")]) == n
  {
    var v := NatToString(n) + "\r";
    assert StartsWith("Error\r", "Error");
    RemoveCrLast(NatToString(n));
    ParseIntNatToString(n);
  }

  lemma {:induction false} RemoveCrLast(s: string)
    requires forall i :: 0 <= i < |s| ==> '0' <= s[i] <= '9'
    ensures RemoveChar(s + "\r", '\r') == s
    decreases |s|
  {
    if |s| > 0 {
      RemoveCrLast(s[1..]);
      assert (s + "\r")[1..] == s[1..] + "\r";
    }
  }

  /** Records without an `Error...` column read 0 errors. */
  lemma ErrorCountMissing(r: Record)
    requires forall i :: 0 <= i < |r| ==> !StartsWith(r[i].0, "Error")
    ensures ErrorCount(r) == 0
  {
  }

  // ---------------------------------------------------------------------------
  // pattern matches

  datatype PatternCount = PatternCount(kind: string, count: nat, examples: seq<Row>)

  datatype PatternAnalysis = PatternAnalysis(
    byType: Groups<Row>, counts: seq<PatternCount>, total: nat)

  /** `pattern.Muster || 'Unbekannt'` */
  function PatternKey(r: Row): string {
    FieldOr(r.fields, "Muster", "Unbekannt")
  }

  function CountsOf(gs: Groups<Row>): (cs: seq<PatternCount>)
    ensures |cs| == |gs|
    ensures forall i :: 0 <= i < |gs| ==> cs[i].kind == gs[i].0 && cs[i].count == |gs[i].1|
    ensures forall i :: 0 <= i < |gs| ==> cs[i].examples == gs[i].1[..if |gs[i].1| < 3 then |gs[i].1| else 3]
  {
    if |gs| == 0 then []
    else
      var g := gs[0].1;
      [PatternCount(gs[0].0, |g|, g[..if |g| < 3 then |g| else 3])] + CountsOf(gs[1..])
  }

  /** The sort key for "most frequent first": `b.count - a.count`. */
  function MostFrequentFirst(c: PatternCount): real {
    -(c.count as real)
  }

  /** `analyzePatternMatches(patternData)` as a value. */
  function PatternAnalysisOf(rows: seq<Row>): PatternAnalysis {
    var groups := GroupBy(rows, PatternKey);
    PatternAnalysis(groups, SortBy(CountsOf(groups), MostFrequentFirst), |rows|)
  }

  /** `analyzePatternMatches(patternData)`: grouping loop, then the sort of the counts. */
  method AnalyzePatternMatches(rows: seq<Row>) returns (a: PatternAnalysis)
    ensures a == PatternAnalysisOf(rows)
  {
    var groups := BuildGroups(rows, PatternKey);
    var counts := CountsOf(groups);
    a := PatternAnalysis(groups, SortBy(counts, MostFrequentFirst), |rows|);
  }

  function SumCounts(cs: seq<PatternCount>): nat {
    if |cs| == 0 then 0 else cs[0].count + SumCounts(cs[1..])
  }

  lemma {:induction false} SumCountsInsert(c: PatternCount, cs: seq<PatternCount>)
    ensures SumCounts(Insert(c, cs, MostFrequentFirst)) == c.count + SumCounts(cs)
    decreases |cs|
  {
    if |cs| > 0 && MostFrequentFirst(c) > MostFrequentFirst(cs[0]) {
      SumCountsInsert(c, cs[1..]);
    }
  }

  lemma {:induction false} SumCountsSort(cs: seq<PatternCount>)
    ensures SumCounts(SortBy(cs, MostFrequentFirst)) == SumCounts(cs)
    decreases |cs|
  {
    if |cs| > 0 {
      SumCountsSort(cs[1..]);
      SumCountsInsert(cs[0], SortBy(cs[1..], MostFrequentFirst));
    }
  }

  lemma {:induction false} SumCountsOf(gs: Groups<Row>)
    ensures SumCounts(CountsOf(gs)) == TotalSize(gs)
    decreases |gs|
  {
    if |gs| > 0 {
      SumCountsOf(gs[1..]);
    }
  }

  /**
   * The counts are ordered most frequent first, add up to the total, and the
   * total is the number of records.
   */
  lemma PatternAnalysisTotals(rows: seq<Row>)
    ensures var a := PatternAnalysisOf(rows);
      a.total == |rows| && SumCounts(a.counts) == a.total
      && forall i, j :: 0 <= i < j < |a.counts| ==> a.counts[i].count >= a.counts[j].count
  {
    var groups := GroupBy(rows, PatternKey);
    GroupByShape(rows, PatternKey);
    SumCountsOf(groups);
    SumCountsSort(CountsOf(groups));
    SortBySorted(CountsOf(groups), MostFrequentFirst);
  }

  /**
   * There is one count entry per distinct pattern type: an entry for `k` exists
   * exactly when some record has type `k`.
   */
  lemma PatternAnalysisTypes(rows: seq<Row>, k: string)
    ensures var a := PatternAnalysisOf(rows);
      (exists i :: 0 <= i < |a.counts| && a.counts[i].kind == k)
        <==> (exists i :: 0 <= i < |rows| && PatternKey(rows[i]) == k)
  {
    var groups := GroupBy(rows, PatternKey);
    var cs := CountsOf(groups);
    var a := PatternAnalysisOf(rows);
    assert a.counts == SortBy(cs, MostFrequentFirst);
    GroupByKeys(rows, PatternKey, k);
    SortKeepsKinds(cs, k);
    var inCounts := exists i :: 0 <= i < |a.counts| && a.counts[i].kind == k;
    var inGroups := exists j :: 0 <= j < |cs| && cs[j].kind == k;
    assert inCounts <==> inGroups;
    assert inGroups <==> k in Keys(groups);
  }

  /** Sorting the counts neither adds nor loses a type. */
  lemma SortKeepsKinds(cs: seq<PatternCount>, k: string)
    ensures (exists i :: 0 <= i < |SortBy(cs, MostFrequentFirst)| && SortBy(cs, MostFrequentFirst)[i].kind == k)
      <==> (exists j :: 0 <= j < |cs| && cs[j].kind == k)
  {
    var sorted := SortBy(cs, MostFrequentFirst);
    SortByPermutes(cs, MostFrequentFirst);
    if exists i :: 0 <= i < |sorted| && sorted[i].kind == k {
      var i :| 0 <= i < |sorted| && sorted[i].kind == k;
      assert sorted[i] in multiset(cs);
      var j :| 0 <= j < |cs| && cs[j] == sorted[i];
    }
    if exists j :: 0 <= j < |cs| && cs[j].kind == k {
      var j :| 0 <= j < |cs| && cs[j].kind == k;
      assert cs[j] in multiset(sorted);
      var i :| 0 <= i < |sorted| && sorted[i] == cs[j];
    }
  }

  /**
   * The entry for type `k` counts the records of that type, and its examples
   * are the first (up to) three of them in input order.
   */
  lemma PatternAnalysisEntry(rows: seq<Row>, k: string, i: nat)
    requires i < |PatternAnalysisOf(rows).counts| && PatternAnalysisOf(rows).counts[i].kind == k
    ensures var c := PatternAnalysisOf(rows).counts[i];
      var f := Filter(rows, PatternKey, k);
      c.count == |f| && c.examples == f[..if |f| < 3 then |f| else 3]
  {
    var groups := GroupBy(rows, PatternKey);
    var cs := CountsOf(groups);
    var sorted := SortBy(cs, MostFrequentFirst);
    GroupByContents(rows, PatternKey, k);
    GroupByShape(rows, PatternKey);
    SortByPermutes(cs, MostFrequentFirst);
    assert sorted[i] in multiset(cs);
    var j :| 0 <= j < |cs| && cs[j] == sorted[i];
    GroupOfAt(groups, j);
  }

  /** With distinct keys, the group stored at position `j` is the group of its key. */
  lemma {:induction false} GroupOfAt<T>(gs: Groups<T>, j: nat)
    requires DistinctKeys(gs) && j < |gs|
    ensures GroupOf(gs, gs[j].0) == gs[j].1
    decreases j
  {
    if j > 0 {
      GroupOfAt(gs[1..], j - 1);
    }
  }
}
