/**
 * The pie chart data of the pattern match widget: the seven most frequent
 * pattern types, and the rest folded into one 'Andere' slice.
 */
module PatternMatchWidget {
  import opened Wrappers
  import opened DataProcessor

  const TopSlices: nat := 7

  datatype Slice = Slice(name: string, value: nat, original: PatternCount)

  function SliceOf(c: PatternCount): Slice {
    Slice(c.kind, c.count, c)
  }

  function Slices(cs: seq<PatternCount>): (ss: seq<Slice>)
    ensures |ss| == |cs|
    ensures forall i :: 0 <= i < |cs| ==> ss[i] == SliceOf(cs[i])
  {
    if |cs| == 0 then [] else [SliceOf(cs[0])] + Slices(cs[1..])
  }

  function SumValues(ss: seq<Slice>): nat {
    if |ss| == 0 then 0 else ss[0].value + SumValues(ss[1..])
  }

  /** `chartData`; `None` is a missing `patternCounts`. */
  function ChartData(counts: Option<seq<PatternCount>>): seq<Slice> {
    match counts
    case None => []
    case Some(cs) =>
      if |cs| == 0 then []
      else
        var top := if |cs| < TopSlices then cs else cs[..TopSlices];
        var other := if |cs| < TopSlices then [] else cs[TopSlices..];
        var otherCount := SumCounts(other);
        Slices(top) + (if |other| > 0 then [Slice("Andere", otherCount, PatternCount("Andere", otherCount, []))] else [])
  }

  /** Missing or empty counts give no slices. */
  lemma ChartDataEmpty()
    ensures ChartData(None) == [] && ChartData(Some([])) == []
  {
  }

  lemma {:induction false} SumValuesSlices(cs: seq<PatternCount>)
    ensures SumValues(Slices(cs)) == SumCounts(cs)
    decreases |cs|
  {
    if |cs| > 0 {
      SumValuesSlices(cs[1..]);
      assert Slices(cs)[1..] == Slices(cs[1..]);
    }
  }

  lemma {:induction false} SumValuesConcat(a: seq<Slice>, b: seq<Slice>)
    ensures SumValues(a + b) == SumValues(a) + SumValues(b)
    decreases |a|
  {
    if |a| > 0 {
      SumValuesConcat(a[1..], b);
      assert (a + b)[1..] == a[1..] + b;
    } else {
      assert a + b == b;
    }
  }

  lemma {:induction false} SumCountsConcat(a: seq<PatternCount>, b: seq<PatternCount>)
    ensures SumCounts(a + b) == SumCounts(a) + SumCounts(b)
    decreases |a|
  {
    if |a| > 0 {
      SumCountsConcat(a[1..], b);
      assert (a + b)[1..] == a[1..] + b;
    } else {
      assert a + b == b;
    }
  }

  /**
   * The first min(n, 7) slices mirror the counts in order; an 'Andere' slice
   * holding the sum of the remaining counts follows exactly when there are more
   * than seven types; no count is lost.
   */
  lemma ChartDataShape(cs: seq<PatternCount>)
    ensures var d := ChartData(Some(cs));
      var top := if |cs| < TopSlices then |cs| else TopSlices;
      |d| == top + (if |cs| > TopSlices then 1 else 0)
      && (forall i :: 0 <= i < top ==> d[i].name == cs[i].kind && d[i].value == cs[i].count)
      && (|cs| > TopSlices ==> d[top].name == "Andere" && d[top].value == SumCounts(cs[TopSlices..]))
      && SumValues(d) == SumCounts(cs)
  {
    if |cs| >= TopSlices {
      var top := cs[..TopSlices];
      var other := cs[TopSlices..];
      assert cs == top + other;
      SumCountsConcat(top, other);
      SumValuesSlices(top);
      var tail := if |other| > 0 then [Slice("Andere", SumCounts(other), PatternCount("Andere", SumCounts(other), []))] else [];
      SumValuesConcat(Slices(top), tail);
    } else if |cs| > 0 {
      SumValuesSlices(cs);
      assert Slices(cs) + [] == Slices(cs);
    }
  }
}
