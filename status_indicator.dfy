/**
 * The status indicator's choice of status: the displayed value is coerced to a
 * number where it reads as one, and the status comes from the threshold table.
 */
module StatusIndicator {
  import opened Wrappers
  import opened Text
  import opened Seqs

  /** A displayed value: a JavaScript number or string. */
  datatype Value = Num(n: real) | Str(s: string)

  datatype Threshold = Threshold(value: Value, status: string, caption: string)

  datatype Status = Status(status: string, caption: string)

  const DefaultStatus := Status("ok", "OK")

  // ---------------------------------------------------------------------------
  // numeric coercion

  /** The value of a decimal digit character. */
  function Digit(c: char): nat
    requires '0' <= c <= '9'
  {
    (c as int) - ('0' as int)
  }

  predicate AllDigits(s: string) {
    forall i :: 0 <= i < |s| ==> '0' <= s[i] <= '9'
  }

  /** Value of a digit string read as an integer. */
  function IntValue(s: string): nat
    requires AllDigits(s)
  {
    if |s| == 0 then 0 else IntValue(s[..|s| - 1]) * 10 + Digit(s[|s| - 1])
  }

  function Pow10(n: nat): (p: nat)
    ensures p >= 1
  {
    if n == 0 then 1 else 10 * Pow10(n - 1)
  }

  /**
   * `Number(s)` for the decimal forms: surrounding whitespace is ignored, an
   * empty string is 0, and otherwise an optional sign, digits, and an optional
   * '.' with digits must make up the whole text, with at least one digit.
   * `None` stands for `NaN`.
   */
  function ToNumber(s: string): Option<real> {
    var t := Trim(s);
    if t == "" then Some(0.0)
    else
      var neg := t[0] == '-';
      var u := if t[0] == '-' || t[0] == '+' then t[1..] else t;
      var n := DigitPrefix(u);
      var rest := u[n..];
      var fraction := if |rest| > 0 then rest[1..] else "";
      var m := if |rest| > 0 && rest[0] == '.' then DigitPrefix(fraction) else 0;
      if n + m == 0 then None
      else if |rest| > 0 && !(rest[0] == '.' && m == |fraction|) then None
      else
        DigitPrefixDigits(u);
        DigitPrefixDigits(fraction);
        var mag := (IntValue(u[..n]) as real) + (IntValue(fraction[..m]) as real) / (Pow10(m) as real);
        Some(if neg then -mag else mag)
  }

  /** Length of the longest prefix of decimal digits. */
  function DigitPrefix(s: string): (n: nat)
    ensures n <= |s|
  {
    if |s| > 0 && '0' <= s[0] <= '9' then 1 + DigitPrefix(s[1..]) else 0
  }

  lemma {:induction false} DigitPrefixDigits(s: string)
    ensures AllDigits(s[..DigitPrefix(s)])
    ensures DigitPrefix(s) < |s| ==> !('0' <= s[DigitPrefix(s)] <= '9')
    decreases |s|
  {
    if |s| > 0 && '0' <= s[0] <= '9' {
      DigitPrefixDigits(s[1..]);
      assert s[..DigitPrefix(s)] == [s[0]] + s[1..][..DigitPrefix(s[1..])];
    }
  }

  /**
   * `typeof value === 'number' ? value : !isNaN(Number(value)) ? Number(value) : value`
   */
  function Coerce(v: Value): (c: Value)
    ensures v.Num? ==> c == v
    ensures v.Str? && ToNumber(v.s).Some? ==> c == Num(ToNumber(v.s).value)
    ensures v.Str? && ToNumber(v.s).None? ==> c == v
  {
    match v
    case Num(_) => v
    case Str(s) => if ToNumber(s).Some? then Num(ToNumber(s).value) else v
  }

  /** A run of decimal digits coerces to its integer value. */
  lemma {:induction false} CoerceDigits(s: string)
    requires |s| > 0 && AllDigits(s)
    ensures Coerce(Str(s)) == Num(IntValue(s) as real)
  {
    assert !IsJsSpace(s[0]) && !IsJsSpace(s[|s| - 1]);
    assert TrimStart(s) == s;
    assert Trim(s) == s;
    DigitsPrefixWhole(s);
    assert s[|s|..] == [];
    assert s[..|s|] == s;
  }

  lemma {:induction false} DigitsPrefixWhole(s: string)
    requires AllDigits(s)
    ensures DigitPrefix(s) == |s|
    decreases |s|
  {
    if |s| > 0 {
      DigitsPrefixWhole(s[1..]);
    }
  }

  /** Blank text coerces to 0, and a word stays a string. */
  lemma CoerceExamples()
    ensures Coerce(Str("  ")) == Num(0.0)
    ensures Coerce(Str("Steigend")) == Str("Steigend")
  {
    assert TrimStart("  ") == "";
    assert Trim("Steigend") == "Steigend" by {
      assert TrimStart("Steigend") == "Steigend";
    }
    assert DigitPrefix("Steigend") == 0;
  }

  // ---------------------------------------------------------------------------
  // status selection

  /**
   * `Number(t.value)`: what a threshold is compared and sorted as, since
   * `<`, `>=` and `-` coerce a string operand to a number. `None` stands for `NaN`.
   */
  function ThresholdNumber(t: Threshold): Option<real> {
    match t.value
    case Num(x) => Some(x)
    case Str(s) => ToNumber(s)
  }

  /** Every threshold reads as a number, so no comparison meets `NaN`. */
  predicate NumericTable(ts: seq<Threshold>) {
    forall i :: 0 <= i < |ts| ==> ThresholdNumber(ts[i]).Some?
  }

  /** The sort key of `(a, b) => a.value - b.value`; `NaN` is ranked as 0. */
  function Level(t: Threshold): real {
    match ThresholdNumber(t)
    case Some(x) => x
    case None => 0.0
  }

  /** A threshold written as a digit string compares as its decimal value. */
  lemma LevelOfDigits(s: string, status: string, caption: string)
    requires |s| > 0 && AllDigits(s)
    ensures NumericTable([Threshold(Str(s), status, caption)])
    ensures Level(Threshold(Str(s), status, caption)) == IntValue(s) as real
  {
    CoerceDigits(s);
  }

  /** `thresholds.find(t => t.value === numericValue)` */
  function FindEqual(ts: seq<Threshold>, s: string): (r: Option<Threshold>)
    ensures r.Some? ==> r.value in ts && r.value.value == Str(s)
    ensures r.None? <==> forall i :: 0 <= i < |ts| ==> ts[i].value != Str(s)
  {
    if |ts| == 0 then None
    else if ts[0].value == Str(s) then Some(ts[0])
    else FindEqual(ts[1..], s)
  }

  /** `find` returns the first match. */
  lemma {:induction false} FindEqualFirst(ts: seq<Threshold>, s: string)
    ensures FindEqual(ts, s).Some? ==>
      exists i :: 0 <= i < |ts| && ts[i] == FindEqual(ts, s).value && forall j :: 0 <= j < i ==> ts[j].value != Str(s)
    decreases |ts|
  {
    if |ts| > 0 && ts[0].value != Str(s) {
      FindEqualFirst(ts[1..], s);
      if FindEqual(ts, s).Some? {
        var i :| 0 <= i < |ts[1..]| && ts[1..][i] == FindEqual(ts, s).value
          && forall j :: 0 <= j < i ==> ts[1..][j].value != Str(s);
        assert ts[i + 1] == FindEqual(ts, s).value;
        assert forall j :: 1 <= j < i + 1 ==> ts[j] == ts[1..][j - 1];
      }
    }
  }

  /** The inverse loop: the first sorted threshold above `x`, else the last one. */
  function FirstAbove(sorted: seq<Threshold>, x: real): Threshold
    requires |sorted| > 0
  {
    if x < Level(sorted[0]) || |sorted| == 1 then sorted[0]
    else FirstAbove(sorted[1..], x)
  }

  /** The standard loop as written: the first sorted threshold at or below `x`, else the first. */
  function FirstAtMost(sorted: seq<Threshold>, x: real): Threshold
    requires |sorted| > 0
  {
    if x >= Level(sorted[0]) then sorted[0]
    else FirstAtMostFrom(sorted, 1, x)
  }

  function FirstAtMostFrom(sorted: seq<Threshold>, i: nat, x: real): Threshold
    requires 0 < |sorted| && i <= |sorted|
    decreases |sorted| - i
  {
    if i == |sorted| then sorted[0]
    else if x >= Level(sorted[i]) then sorted[i]
    else FirstAtMostFrom(sorted, i + 1, x)
  }

  /** The threshold the numeric branch answers with, searching a sorted copy. */
  function Pick(ts: seq<Threshold>, x: real, inverse: bool): Threshold
    requires |ts| > 0
  {
    var sorted := SortBy(ts, Level);
    if inverse then FirstAbove(sorted, x) else FirstAtMost(sorted, x)
  }

  /** `determineStatus()` as written. */
  function DetermineStatus(value: Value, ts: seq<Threshold>, inverse: bool): Status {
    var v := Coerce(value);
    if |ts| == 0 then DefaultStatus
    else match v
      case Str(s) =>
        (match FindEqual(ts, s)
         case Some(t) => Status(t.status, t.caption)
         case None => DefaultStatus)
      case Num(x) =>
        var t := Pick(ts, x, inverse);
        Status(t.status, t.caption)
  }

  /** With no thresholds the status is ok. */
  lemma NoThresholdsIsOk(value: Value, inverse: bool)
    ensures DetermineStatus(value, [], inverse) == DefaultStatus
  {
  }

  /** A value that stays a string picks the first threshold with that exact value, else ok. */
  lemma StringValueMatches(s: string, ts: seq<Threshold>, inverse: bool)
    requires |ts| > 0 && ToNumber(s).None?
    ensures (exists i :: 0 <= i < |ts| && ts[i].value == Str(s)) ==>
      exists i :: 0 <= i < |ts| && ts[i].value == Str(s)
        && (forall j :: 0 <= j < i ==> ts[j].value != Str(s))
        && DetermineStatus(Str(s), ts, inverse) == Status(ts[i].status, ts[i].caption)
    ensures (forall i :: 0 <= i < |ts| ==> ts[i].value != Str(s)) ==>
      DetermineStatus(Str(s), ts, inverse) == DefaultStatus
  {
    FindEqualFirst(ts, s);
  }

  /** A number answers with the status of the threshold `Pick` chooses. */
  lemma NumberUsesPick(x: real, ts: seq<Threshold>, inverse: bool)
    requires |ts| > 0
    ensures var t := Pick(ts, x, inverse);
      DetermineStatus(Num(x), ts, inverse) == Status(t.status, t.caption)
  {
  }

  /** The inverse search on a sorted table picks the lowest level above `x`, else the last. */
  lemma {:induction false} FirstAboveSpec(sorted: seq<Threshold>, x: real)
    requires |sorted| > 0 && SortedBy(sorted, Level)
    ensures FirstAbove(sorted, x) in sorted
    ensures (exists i :: 0 <= i < |sorted| && x < Level(sorted[i])) ==>
      x < Level(FirstAbove(sorted, x))
      && forall i :: 0 <= i < |sorted| && x < Level(sorted[i]) ==> Level(FirstAbove(sorted, x)) <= Level(sorted[i])
    ensures (forall i :: 0 <= i < |sorted| ==> Level(sorted[i]) <= x) ==>
      FirstAbove(sorted, x) == sorted[|sorted| - 1]
  {
    FirstAboveMember(sorted, x);
    FirstAboveLeast(sorted, x);
    FirstAboveFallback(sorted, x);
  }

  lemma {:induction false} FirstAboveMember(sorted: seq<Threshold>, x: real)
    requires |sorted| > 0
    ensures FirstAbove(sorted, x) in sorted
    decreases |sorted|
  {
    if !(x < Level(sorted[0])) && |sorted| > 1 {
      FirstAboveMember(sorted[1..], x);
    }
  }

  lemma {:induction false} FirstAboveLeast(sorted: seq<Threshold>, x: real)
    requires |sorted| > 0 && SortedBy(sorted, Level)
    ensures (exists i :: 0 <= i < |sorted| && x < Level(sorted[i])) ==>
      x < Level(FirstAbove(sorted, x))
      && forall i :: 0 <= i < |sorted| && x < Level(sorted[i]) ==> Level(FirstAbove(sorted, x)) <= Level(sorted[i])
    decreases |sorted|
  {
    if !(x < Level(sorted[0])) && |sorted| > 1 {
      var tail := sorted[1..];
      assert SortedBy(tail, Level);
      FirstAboveLeast(tail, x);
      forall i | 1 <= i < |sorted| ensures sorted[i] == tail[i - 1] { }
    }
  }

  lemma {:induction false} FirstAboveFallback(sorted: seq<Threshold>, x: real)
    requires |sorted| > 0
    ensures (forall i :: 0 <= i < |sorted| ==> Level(sorted[i]) <= x) ==>
      FirstAbove(sorted, x) == sorted[|sorted| - 1]
    decreases |sorted|
  {
    if !(x < Level(sorted[0])) && |sorted| > 1 {
      var tail := sorted[1..];
      FirstAboveFallback(tail, x);
      forall i | 0 <= i < |tail| ensures tail[i] == sorted[i + 1] { }
    }
  }

  /**
   * The inverse mode: the threshold with the lowest value above the number, or
   * a highest threshold when the number is at or above all of them.
   */
  lemma InversePick(x: real, ts: seq<Threshold>)
    requires |ts| > 0 && NumericTable(ts)
    ensures Pick(ts, x, true) in ts
    ensures (exists i :: 0 <= i < |ts| && x < Level(ts[i])) ==>
      x < Level(Pick(ts, x, true))
      && forall i :: 0 <= i < |ts| && x < Level(ts[i]) ==> Level(Pick(ts, x, true)) <= Level(ts[i])
    ensures (forall i :: 0 <= i < |ts| ==> Level(ts[i]) <= x) ==>
      forall i :: 0 <= i < |ts| ==> Level(ts[i]) <= Level(Pick(ts, x, true))
  {
    var sorted := SortBy(ts, Level);
    SortBySorted(ts, Level);
    SortByPermutes(ts, Level);
    FirstAboveSpec(sorted, x);
    SameMembers(sorted, ts);
    SameMembers(ts, sorted);
    if exists i :: 0 <= i < |ts| && x < Level(ts[i]) {
      InversePickAbove(x, ts, sorted);
    }
    if forall i :: 0 <= i < |ts| ==> Level(ts[i]) <= x {
      InversePickBelow(x, ts, sorted);
    }
  }

  /** Sequences with the same multiset of elements have the same members. */
  lemma SameMembers<T>(a: seq<T>, b: seq<T>)
    requires multiset(a) == multiset(b)
    ensures forall y :: y in a ==> y in b
  {
    forall y | y in a ensures y in b {
      assert y in multiset(a);
    }
  }

  /** The inverse search when some level lies above `x`. */
  lemma InversePickAbove(x: real, ts: seq<Threshold>, sorted: seq<Threshold>)
    requires |ts| > 0 && sorted == SortBy(ts, Level) && SortedBy(sorted, Level)
    requires forall y :: y in ts ==> y in sorted
    requires exists i :: 0 <= i < |ts| && x < Level(ts[i])
    ensures x < Level(Pick(ts, x, true))
    ensures forall i :: 0 <= i < |ts| && x < Level(ts[i]) ==> Level(Pick(ts, x, true)) <= Level(ts[i])
  {
    FirstAboveSpec(sorted, x);
    var i :| 0 <= i < |ts| && x < Level(ts[i]);
    assert ts[i] in sorted;
    forall k | 0 <= k < |ts| && x < Level(ts[k]) ensures Level(FirstAbove(sorted, x)) <= Level(ts[k]) {
      assert ts[k] in sorted;
    }
  }

  /** The inverse search when no level lies above `x`. */
  lemma InversePickBelow(x: real, ts: seq<Threshold>, sorted: seq<Threshold>)
    requires |ts| > 0 && sorted == SortBy(ts, Level) && SortedBy(sorted, Level)
    requires forall y :: y in sorted ==> y in ts
    requires forall i :: 0 <= i < |ts| ==> Level(ts[i]) <= x
    ensures forall i :: 0 <= i < |ts| ==> Level(ts[i]) <= Level(Pick(ts, x, true))
  {
    forall j | 0 <= j < |sorted| ensures Level(sorted[j]) <= x {
      assert sorted[j] in ts;
    }
    FirstAboveSpec(sorted, x);
    SortByLastIsMax(ts, Level);
    forall i | 0 <= i < |ts| ensures Level(ts[i]) <= Level(sorted[|ts| - 1]) {
      assert ts[i] in multiset(ts);
    }
  }

  // ---------------------------------------------------------------------------
  // the standard mode, as written and as intended

  lemma {:induction false} FirstAtMostFromBelow(sorted: seq<Threshold>, i: nat, x: real)
    requires 0 < i <= |sorted| && SortedBy(sorted, Level) && x < Level(sorted[0])
    ensures FirstAtMostFrom(sorted, i, x) == sorted[0]
    decreases |sorted| - i
  {
    if i < |sorted| {
      assert Level(sorted[0]) <= Level(sorted[i]);
      FirstAtMostFromBelow(sorted, i + 1, x);
    }
  }

  /**
   * As written, the standard mode always answers with the first sorted
   * threshold: in ascending order the first threshold the number reaches is
   * the lowest one, and a number below all of them falls back to that same one.
   */
  lemma StandardPickAsWritten(x: real, ts: seq<Threshold>)
    requires |ts| > 0 && NumericTable(ts)
    ensures Pick(ts, x, false) == SortBy(ts, Level)[0]
    ensures Pick(ts, x, false) in ts
    ensures forall i :: 0 <= i < |ts| ==> Level(Pick(ts, x, false)) <= Level(ts[i])
  {
    var sorted := SortBy(ts, Level);
    SortBySorted(ts, Level);
    if x < Level(sorted[0]) {
      FirstAtMostFromBelow(sorted, 1, x);
    }
    SortByFirstIsMin(ts, Level);
    forall i | 0 <= i < |ts| ensures Level(sorted[0]) <= Level(ts[i]) {
      assert ts[i] in multiset(ts);
    }
  }

  /** The example table 0/ok, 50/warning, 80/error, already in ascending order. */
  function ExampleTable(): seq<Threshold> {
    [Threshold(Num(0.0), "ok", "Gut"), Threshold(Num(50.0), "warning", "Warnung"),
     Threshold(Num(80.0), "error", "Kritisch")]
  }

  lemma ExampleTableSorted()
    ensures SortBy(ExampleTable(), Level) == ExampleTable()
  {
    var ts := ExampleTable();
    assert ts[2..] == [ts[2]];
    assert ts[1..] == [ts[1], ts[2]];
    assert SortBy(ts[2..], Level) == [ts[2]];
    assert SortBy(ts[1..], Level) == [ts[1], ts[2]];
  }

  /** With thresholds 0/ok, 50/warning and 80/error, the value 90 reads 'ok'. */
  lemma StandardStatusCounterexample()
    ensures DetermineStatus(Num(90.0), ExampleTable(), false) == Status("ok", "Gut")
  {
    ExampleTableSorted();
  }

  /** The standard search as intended: the last sorted threshold at or below `x`, else the first. */
  function LastAtMost(sorted: seq<Threshold>, x: real): Threshold
    requires |sorted| > 0
    decreases |sorted|
  {
    if |sorted| == 1 then sorted[0]
    else if x >= Level(sorted[|sorted| - 1]) then sorted[|sorted| - 1]
    else LastAtMost(sorted[..|sorted| - 1], x)
  }

  lemma {:induction false} LastAtMostSpec(sorted: seq<Threshold>, x: real)
    requires |sorted| > 0 && SortedBy(sorted, Level)
    ensures LastAtMost(sorted, x) in sorted
    ensures (exists i :: 0 <= i < |sorted| && Level(sorted[i]) <= x) ==>
      Level(LastAtMost(sorted, x)) <= x
      && forall i :: 0 <= i < |sorted| && Level(sorted[i]) <= x ==> Level(sorted[i]) <= Level(LastAtMost(sorted, x))
    ensures (forall i :: 0 <= i < |sorted| ==> x < Level(sorted[i])) ==> LastAtMost(sorted, x) == sorted[0]
  {
    LastAtMostMember(sorted, x);
    LastAtMostGreatest(sorted, x);
    LastAtMostFallback(sorted, x);
  }

  lemma {:induction false} LastAtMostMember(sorted: seq<Threshold>, x: real)
    requires |sorted| > 0
    ensures LastAtMost(sorted, x) in sorted
    decreases |sorted|
  {
    var n := |sorted| - 1;
    if n > 0 && !(x >= Level(sorted[n])) {
      LastAtMostMember(sorted[..n], x);
    }
  }

  lemma {:induction false} LastAtMostGreatest(sorted: seq<Threshold>, x: real)
    requires |sorted| > 0 && SortedBy(sorted, Level)
    ensures (exists i :: 0 <= i < |sorted| && Level(sorted[i]) <= x) ==>
      Level(LastAtMost(sorted, x)) <= x
      && forall i :: 0 <= i < |sorted| && Level(sorted[i]) <= x ==> Level(sorted[i]) <= Level(LastAtMost(sorted, x))
    decreases |sorted|
  {
    var n := |sorted| - 1;
    if n > 0 && !(x >= Level(sorted[n])) {
      var front := sorted[..n];
      assert SortedBy(front, Level);
      LastAtMostGreatest(front, x);
      forall i | 0 <= i < n ensures sorted[i] == front[i] { }
    }
  }

  lemma {:induction false} LastAtMostFallback(sorted: seq<Threshold>, x: real)
    requires |sorted| > 0
    ensures (forall i :: 0 <= i < |sorted| ==> x < Level(sorted[i])) ==> LastAtMost(sorted, x) == sorted[0]
    decreases |sorted|
  {
    var n := |sorted| - 1;
    if n > 0 && !(x >= Level(sorted[n])) {
      var front := sorted[..n];
      LastAtMostFallback(front, x);
      forall i | 0 <= i < n ensures front[i] == sorted[i] { }
    }
  }

  /** The threshold the corrected numeric branch answers with. */
  function PickIntended(ts: seq<Threshold>, x: real, inverse: bool): Threshold
    requires |ts| > 0
  {
    var sorted := SortBy(ts, Level);
    if inverse then FirstAbove(sorted, x) else LastAtMost(sorted, x)
  }

  /** `determineStatus()` with the standard mode picking the highest threshold reached. */
  function DetermineStatusIntended(value: Value, ts: seq<Threshold>, inverse: bool): Status {
    var v := Coerce(value);
    if |ts| == 0 then DefaultStatus
    else match v
      case Str(s) =>
        (match FindEqual(ts, s)
         case Some(t) => Status(t.status, t.caption)
         case None => DefaultStatus)
      case Num(x) =>
        var t := PickIntended(ts, x, inverse);
        Status(t.status, t.caption)
  }

  /**
   * The intended standard mode: the highest threshold the number reaches, or
   * the lowest threshold when it reaches none.
   */
  lemma StandardPickIntended(x: real, ts: seq<Threshold>)
    requires |ts| > 0 && NumericTable(ts)
    ensures PickIntended(ts, x, false) in ts
    ensures (exists i :: 0 <= i < |ts| && Level(ts[i]) <= x) ==>
      Level(PickIntended(ts, x, false)) <= x
      && forall i :: 0 <= i < |ts| && Level(ts[i]) <= x ==> Level(ts[i]) <= Level(PickIntended(ts, x, false))
    ensures (forall i :: 0 <= i < |ts| ==> x < Level(ts[i])) ==>
      forall i :: 0 <= i < |ts| ==> Level(PickIntended(ts, x, false)) <= Level(ts[i])
  {
    var sorted := SortBy(ts, Level);
    SortBySorted(ts, Level);
    SortByPermutes(ts, Level);
    LastAtMostSpec(sorted, x);
    var t := LastAtMost(sorted, x);
    assert t in multiset(sorted);
    forall i | 0 <= i < |ts| ensures exists j :: 0 <= j < |sorted| && sorted[j] == ts[i] {
      assert ts[i] in multiset(sorted);
    }
    if exists i :: 0 <= i < |ts| && Level(ts[i]) <= x {
      var i :| 0 <= i < |ts| && Level(ts[i]) <= x;
      var j :| 0 <= j < |sorted| && sorted[j] == ts[i];
    }
    if forall i :: 0 <= i < |ts| ==> x < Level(ts[i]) {
      forall j | 0 <= j < |sorted| ensures x < Level(sorted[j]) {
        assert sorted[j] in multiset(ts);
      }
      SortByFirstIsMin(ts, Level);
      forall i | 0 <= i < |ts| ensures Level(sorted[0]) <= Level(ts[i]) {
        assert ts[i] in multiset(ts);
      }
    }
  }

  /** On the example table the intended mode reads 'error' for 90. */
  lemma StandardStatusIntendedExample()
    ensures DetermineStatusIntended(Num(90.0), ExampleTable(), false) == Status("error", "Kritisch")
  {
    ExampleTableSorted();
  }
}
