/**
 * The floating timeline panel: the readable length of the selected range, the
 * shift of the range by its own length, the quick-range presets that end at
 * the newest instant, and the local filter state each of these leaves behind.
 */
module TimelinePanel {
  import opened Wrappers
  import opened Text
  import opened Records
  import opened TimelineSlider

  // ---------------------------------------------------------------------------
  // the readable duration

  /** JavaScript's `a % b` for a positive `b`: the remainder takes the sign of `a`. */
  function JsRem(a: int, b: int): (r: int)
    requires b > 0
    ensures a >= 0 ==> r == a % b
    ensures a < 0 ==> -b < r <= 0
  {
    if a >= 0 then a % b else -((-a) % b)
  }

  /** Days, hours and minutes of `diffMs`, each through `Math.floor`. */
  function DurationParts(diffMs: int): (int, int, int) {
    (diffMs / DayMs, JsRem(diffMs, DayMs) / HourMs, JsRem(diffMs, HourMs) / MinuteMs)
  }

  /** A non-negative length is its days, hours, minutes and a rest below a minute. */
  lemma DurationPartsDecompose(diffMs: int)
    requires diffMs >= 0
    ensures var (d, h, m) := DurationParts(diffMs);
      && d >= 0 && 0 <= h < 24 && 0 <= m < 60
      && diffMs == d * DayMs + h * HourMs + m * MinuteMs + diffMs % MinuteMs
  {
    var d := diffMs / DayMs;
    var r := diffMs % DayMs;
    var h := r / HourMs;
    var q := diffMs % HourMs;
    RestOfDay(diffMs);
    RestOfHour(diffMs);
    assert diffMs == d * DayMs + r;
    assert r == h * HourMs + q;
    assert q == (q / MinuteMs) * MinuteMs + diffMs % MinuteMs;
  }

  /** The hours left in the last day are the hours left in the last hour, and fewer than 24. */
  lemma RestOfDay(x: int)
    requires x >= 0
    ensures (x % DayMs) % HourMs == x % HourMs
    ensures (x % DayMs) / HourMs < 24
  {
    var r := x % DayMs;
    assert x == (x / DayMs * 24) * HourMs + r;
    assert r == (r / HourMs) * HourMs + r % HourMs;
  }

  /** The minutes left in the last hour are the minutes left in the last minute, and fewer than 60. */
  lemma RestOfHour(x: int)
    requires x >= 0
    ensures (x % HourMs) % MinuteMs == x % MinuteMs
    ensures (x % HourMs) / MinuteMs < 60
  {
    var r := x % HourMs;
    assert x == (x / HourMs * 60) * MinuteMs + r;
    assert r == (r / MinuteMs) * MinuteMs + r % MinuteMs;
  }

  /** `${days} Tag` or `${days} Tage`. */
  function DayPiece(days: int): (s: string)
    ensures |s| > 0
  {
    IntToString(days) + " " + (if days == 1 then "Tag" else "Tage")
  }

  /** `${hours} Std.` */
  function HourPiece(hours: int): (s: string)
    ensures |s| > 0
  {
    IntToString(hours) + " Std."
  }

  /** `${minutes} Min.` */
  function MinutePiece(minutes: int): (s: string)
    ensures |s| > 0
  {
    IntToString(minutes) + " Min."
  }

  function DayPieces(days: int): seq<string> {
    if days > 0 then [DayPiece(days)] else []
  }

  function HourPieces(hours: int): seq<string> {
    if hours > 0 then [HourPiece(hours)] else []
  }

  function MinutePieces(days: int, hours: int, minutes: int): seq<string> {
    if minutes > 0 || (days == 0 && hours == 0) then [MinutePiece(minutes)] else []
  }

  /** The pieces of the text: days, hours, and minutes when there are some or nothing else. */
  function DurationPieces(days: int, hours: int, minutes: int): (ps: seq<string>)
    ensures forall i :: 0 <= i < |ps| ==> |ps[i]| > 0
  {
    DayPieces(days) + HourPieces(hours) + MinutePieces(days, hours, minutes)
  }

  /** Pieces separated by single spaces; no pieces give ''. */
  function Spaced(ps: seq<string>): string {
    if |ps| == 0 then "" else Join(ps, ' ')
  }

  /** Appending a piece: a space goes in exactly when the text so far is not empty. */
  lemma {:induction false} SpacedSnoc(ps: seq<string>, p: string)
    requires forall i :: 0 <= i < |ps| ==> |ps[i]| > 0
    ensures Spaced(ps) == "" <==> |ps| == 0
    ensures Spaced(ps + [p]) == Spaced(ps) + (if Spaced(ps) != "" then " " else "") + p
    decreases |ps|
  {
    if |ps| == 1 {
      assert Join(ps + [p], ' ') == ps[0] + [' '] + Join([p], ' ');
    } else if |ps| > 1 {
      SpacedSnoc(ps[1..], p);
      assert (ps + [p])[1..] == ps[1..] + [p];
      assert |Join(ps, ' ')| >= |ps[0]|;
    }
  }

  /** `timeRangeDuration`: the pieces separated by single spaces; '' without both dates. */
  function DurationText(range: DateRange): string {
    BoundsText(range.start, range.end)
  }

  /** The text for a start and an end that may be missing. */
  function BoundsText(start: Option<int>, end: Option<int>): string {
    if start.None? || end.None? then ""
    else PartsText(DurationParts(end.value - start.value))
  }

  /** The spaced pieces of a days, hours and minutes triple. */
  function PartsText(parts: (int, int, int)): string {
    Spaced(DurationPieces(parts.0, parts.1, parts.2))
  }

  /** `result += `${result ? ' ' : ''}${piece}`` when `cond` holds. */
  function AppendIf(text: string, cond: bool, piece: string): string {
    if cond then text + (if text != "" then " " else "") + piece else text
  }

  /** Appending a non-empty piece when `cond` holds to the spaced text of `ps`. */
  lemma AppendPiece(ps: seq<string>, cond: bool, piece: string)
    requires forall i :: 0 <= i < |ps| ==> |ps[i]| > 0
    requires |piece| > 0
    ensures AppendIf(Spaced(ps), cond, piece) == Spaced(ps + (if cond then [piece] else []))
  {
    if cond {
      SpacedSnoc(ps, piece);
    } else {
      assert ps + [] == ps;
    }
  }

  lemma NonEmptyConcat(a: seq<string>, b: seq<string>)
    requires forall i :: 0 <= i < |a| ==> |a[i]| > 0
    requires forall i :: 0 <= i < |b| ==> |b[i]| > 0
    ensures forall i :: 0 <= i < |a + b| ==> |(a + b)[i]| > 0
  {
    forall i | 0 <= i < |a + b| ensures |(a + b)[i]| > 0 {
      if i < |a| {
        assert (a + b)[i] == a[i];
      } else {
        assert (a + b)[i] == b[i - |a|];
      }
    }
  }

  /** The spaced pieces are built by appending the day, hour and minute pieces in turn. */
  lemma DurationPiecesAppend(days: int, hours: int, minutes: int)
    ensures Spaced(DurationPieces(days, hours, minutes)) ==
      AppendIf(AppendIf(AppendIf("", days > 0, DayPiece(days)), hours > 0, HourPiece(hours)),
        minutes > 0 || (days == 0 && hours == 0), MinutePiece(minutes))
  {
    var ds := DayPieces(days);
    var hs := HourPieces(hours);
    var ms := MinutePieces(days, hours, minutes);
    AppendPiece([], days > 0, DayPiece(days));
    assert [] + ds == ds;
    AppendPiece(ds, hours > 0, HourPiece(hours));
    NonEmptyConcat(ds, hs);
    AppendPiece(ds + hs, minutes > 0 || (days == 0 && hours == 0), MinutePiece(minutes));
  }

  /** `timeRangeDuration`, appending each piece to the result string. */
  method TimeRangeDuration(range: DateRange) returns (result: string)
    ensures result == DurationText(range)
  {
    if range.start.None? || range.end.None? {
      return "";
    }
    var diffMs := range.end.value - range.start.value;
    var days := diffMs / DayMs;
    var hours := JsRem(diffMs, DayMs) / HourMs;
    var minutes := JsRem(diffMs, HourMs) / MinuteMs;
    result := "";
    if days > 0 {
      result := result + DayPiece(days);
    }
    assert result == AppendIf("", days > 0, DayPiece(days));
    ghost var text := result;
    if hours > 0 {
      result := result + (if result != "" then " " else "") + HourPiece(hours);
    }
    assert result == AppendIf(text, hours > 0, HourPiece(hours));
    text := result;
    if minutes > 0 || (days == 0 && hours == 0) {
      result := result + (if result != "" then " " else "") + MinutePiece(minutes);
    }
    assert result == AppendIf(text, minutes > 0 || (days == 0 && hours == 0), MinutePiece(minutes));
    DurationTextAppends(range, days, hours, minutes);
  }

  /** With both dates, the text is what appending the day, hour and minute pieces in turn gives. */
  lemma DurationTextAppends(range: DateRange, days: int, hours: int, minutes: int)
    requires range.start.Some? && range.end.Some?
    requires (days, hours, minutes) == DurationParts(range.end.value - range.start.value)
    ensures DurationText(range) ==
      AppendIf(AppendIf(AppendIf("", days > 0, DayPiece(days)), hours > 0, HourPiece(hours)),
        minutes > 0 || (days == 0 && hours == 0), MinutePiece(minutes))
  {
    DurationPiecesAppend(days, hours, minutes);
    BoundsTextOfLength(range.start, range.end);
  }

  /** Both dates present: the text is never empty for a forward range, and empty for a backward one. */
  lemma DurationTextCases(range: DateRange)
    ensures range.start.None? || range.end.None? ==> DurationText(range) == ""
    ensures range.start.Some? && range.end.Some? && range.end.value < range.start.value ==> DurationText(range) == ""
    ensures range.start.Some? && range.end.Some? && range.end.value >= range.start.value ==> DurationText(range) != ""
    ensures range.start.Some? && range.end.Some? && range.end.value == range.start.value ==> DurationText(range) == "0 Min."
  {
    if range.start.Some? && range.end.Some? {
      var diffMs := range.end.value - range.start.value;
      PartsTextCases(diffMs);
      BoundsTextOfLength(range.start, range.end);
    }
  }

  /** With both bounds, the text is that of the length between them. */
  lemma BoundsTextOfLength(start: Option<int>, end: Option<int>)
    requires start.Some? && end.Some?
    ensures BoundsText(start, end) == PartsText(DurationParts(end.value - start.value))
  {
  }

  /** The text of a length: empty when negative, never empty otherwise, "0 Min." for zero. */
  lemma PartsTextCases(diffMs: int)
    ensures diffMs < 0 ==> PartsText(DurationParts(diffMs)) == ""
    ensures diffMs >= 0 ==> PartsText(DurationParts(diffMs)) != ""
    ensures diffMs == 0 ==> PartsText(DurationParts(diffMs)) == "0 Min."
  {
    var (d, h, m) := DurationParts(diffMs);
    SpacedSnoc(DurationPieces(d, h, m), "");
    if diffMs < 0 {
      NoPiecesBackward(diffMs);
    } else if diffMs == 0 {
      ZeroMinutes();
    } else {
      SomePieceForward(diffMs);
    }
  }

  /** A backward range has no days, hours or minutes to show. */
  lemma NoPiecesBackward(diffMs: int)
    requires diffMs < 0
    ensures var (d, h, m) := DurationParts(diffMs); DurationPieces(d, h, m) == []
  {
    var (d, h, m) := DurationParts(diffMs);
    assert d < 0 && h <= 0 && m <= 0;
    assert DayPieces(d) == [] && HourPieces(h) == [] && MinutePieces(d, h, m) == [];
  }

  /** An empty range shows "0 Min.". */
  lemma ZeroMinutes()
    ensures DurationParts(0) == (0, 0, 0)
    ensures Spaced(DurationPieces(0, 0, 0)) == "0 Min."
  {
    assert IntToString(0) == "0";
    assert DurationPieces(0, 0, 0) == [MinutePiece(0)];
  }

  /** A forward range always has a piece: minutes stand in when there are no days or hours. */
  lemma SomePieceForward(diffMs: int)
    requires diffMs >= 0
    ensures var (d, h, m) := DurationParts(diffMs); |DurationPieces(d, h, m)| > 0
  {
    DurationPartsDecompose(diffMs);
    var (d, h, m) := DurationParts(diffMs);
    assert d > 0 || h > 0 || |MinutePieces(d, h, m)| > 0;
  }

  /** Three pieces in order: "1 Tag 2 Std. 3 Min." for a day, two hours, three minutes and four seconds. */
  lemma DurationTextExample()
    ensures DurationText(DateRange(Some(0), Some(DayMs + 2 * HourMs + 3 * MinuteMs + 4_000))) == "1 Tag 2 Std. 3 Min."
  {
    ExampleParts();
    ExampleText();
  }

  lemma ExampleParts()
    ensures DurationParts(DayMs + 2 * HourMs + 3 * MinuteMs + 4_000) == (1, 2, 3)
  {
  }

  lemma ExampleText()
    ensures Spaced(DurationPieces(1, 2, 3)) == "1 Tag 2 Std. 3 Min."
  {
    ExamplePieces();
    var ps := DurationPieces(1, 2, 3);
    assert ps == ["1 Tag", "2 Std.", "3 Min."];
    assert Join(ps[2..], ' ') == "3 Min.";
    assert Join(ps[1..], ' ') == "2 Std. 3 Min.";
  }

  lemma ExamplePieces()
    ensures DayPiece(1) == "1 Tag" && HourPiece(2) == "2 Std." && MinutePiece(3) == "3 Min."
  {
    assert IntToString(1) == "1" && IntToString(2) == "2" && IntToString(3) == "3";
  }

  // ---------------------------------------------------------------------------
  // shift and quick ranges

  /**
   * `shiftTimeRange` on a range from `start` to `end`: forward ("forward")
   * moves both ends up by the span and, past `maxDate`, ends the range there;
   * any other direction moves both down and, before `minDate`, starts it there.
   */
  function Shift(start: int, end: int, direction: string, minDate: Option<int>, maxDate: Option<int>): (r: Range)
    ensures r.end - r.start == end - start
    ensures direction == "forward" && maxDate.Some? ==> r.end <= maxDate.value
    ensures direction == "forward" && (maxDate.None? || 2 * end - start <= maxDate.value) ==>
      r == Range(end, 2 * end - start)
    ensures direction == "forward" && maxDate.Some? && 2 * end - start > maxDate.value ==>
      r.end == maxDate.value
    ensures direction != "forward" && minDate.Some? ==> r.start >= minDate.value
    ensures direction != "forward" && (minDate.None? || 2 * start - end >= minDate.value) ==>
      r == Range(2 * start - end, start)
    ensures direction != "forward" && minDate.Some? && 2 * start - end < minDate.value ==>
      r.start == minDate.value
  {
    var span := end - start;
    if direction == "forward" then
      if maxDate.Some? && end + span > maxDate.value then Range(maxDate.value - span, maxDate.value)
      else Range(start + span, end + span)
    else
      if minDate.Some? && start - span < minDate.value then Range(minDate.value, minDate.value + span)
      else Range(start - span, end - span)
  }

  /** A shift forward and one back, neither clamped, restore the range, in either order. */
  lemma ShiftRoundTrip(start: int, end: int, minDate: Option<int>, maxDate: Option<int>)
    requires maxDate.None? || 2 * end - start <= maxDate.value
    requires minDate.None? || start >= minDate.value
    ensures var f := Shift(start, end, "forward", minDate, maxDate);
      Shift(f.start, f.end, "backward", minDate, maxDate) == Range(start, end)
  {
  }

  lemma ShiftBackRoundTrip(start: int, end: int, minDate: Option<int>, maxDate: Option<int>)
    requires minDate.None? || 2 * start - end >= minDate.value
    requires maxDate.None? || end <= maxDate.value
    ensures var b := Shift(start, end, "backward", minDate, maxDate);
      Shift(b.start, b.end, "forward", minDate, maxDate) == Range(start, end)
  {
  }

  /** How far back each preset starts; `None` for a name that is not a preset. */
  function PresetOffset(kind: string): (off: Option<nat>)
    ensures off.Some? <==> kind in {"min5", "min15", "hour1", "hour4", "hour8", "hour16",
                                    "lastDay", "lastWeek", "twoWeeks", "lastMonth"}
  {
    match kind
    case "min5" => Some(5 * MinuteMs)
    case "min15" => Some(15 * MinuteMs)
    case "hour1" => Some(HourMs)
    case "hour4" => Some(4 * HourMs)
    case "hour8" => Some(8 * HourMs)
    case "hour16" => Some(16 * HourMs)
    case "lastDay" => Some(DayMs)
    case "lastWeek" => Some(7 * DayMs)
    case "twoWeeks" => Some(14 * DayMs)
    case "lastMonth" => Some(30 * DayMs)
    case _ => None
  }

  /**
   * `handleFilterTypeChange`: a preset window ending at `maxDate`; nothing
   * without `maxDate` or for an unknown name. The start is not clamped.
   */
  function QuickRange(kind: string, maxDate: Option<int>): (r: Option<Range>)
    ensures r.Some? <==> maxDate.Some? && PresetOffset(kind).Some?
    ensures r.Some? ==> r.value.end == maxDate.value && r.value.end - r.value.start == PresetOffset(kind).value
  {
    if maxDate.None? then None
    else match PresetOffset(kind)
      case None => None
      case Some(off) => Some(Range(maxDate.value - off, maxDate.value))
  }

  /** The exact lengths of the presets, in milliseconds. */
  lemma PresetLengths(maxDate: int)
    ensures QuickRange("min5", Some(maxDate)) == Some(Range(maxDate - 300_000, maxDate))
    ensures QuickRange("min15", Some(maxDate)) == Some(Range(maxDate - 900_000, maxDate))
    ensures QuickRange("hour1", Some(maxDate)) == Some(Range(maxDate - 3_600_000, maxDate))
    ensures QuickRange("hour4", Some(maxDate)) == Some(Range(maxDate - 14_400_000, maxDate))
    ensures QuickRange("hour8", Some(maxDate)) == Some(Range(maxDate - 28_800_000, maxDate))
    ensures QuickRange("hour16", Some(maxDate)) == Some(Range(maxDate - 57_600_000, maxDate))
    ensures QuickRange("lastDay", Some(maxDate)) == Some(Range(maxDate - 86_400_000, maxDate))
    ensures QuickRange("lastWeek", Some(maxDate)) == Some(Range(maxDate - 604_800_000, maxDate))
    ensures QuickRange("twoWeeks", Some(maxDate)) == Some(Range(maxDate - 1_209_600_000, maxDate))
    ensures QuickRange("lastMonth", Some(maxDate)) == Some(Range(maxDate - 2_592_000_000, maxDate))
  {
  }

  /** A preset can start before the oldest instant: one hour over a half-hour domain. */
  lemma QuickRangeNotClamped(minDate: int)
    ensures var r := QuickRange("hour1", Some(minDate + 30 * MinuteMs));
      r.Some? && r.value.start < minDate
  {
  }

  // ---------------------------------------------------------------------------
  // the panel's local filter

  /** `localFilter` with its dates as instants and `type` as `kind`. */
  datatype LocalFilter = LocalFilter(start: Option<int>, end: Option<int>, kind: string)

  class Panel {
    var minDate: Option<int>
    var maxDate: Option<int>
    var filter: LocalFilter

    /** The first render copies the parent's range, of type 'custom'. */
    constructor(range: DateRange, minDate: Option<int>, maxDate: Option<int>)
      ensures this.minDate == minDate && this.maxDate == maxDate
      ensures filter == LocalFilter(range.start, range.end, "custom")
    {
      this.minDate := minDate;
      this.maxDate := maxDate;
      filter := LocalFilter(range.start, range.end, "custom");
    }

    /** `isFilterActive` */
    predicate IsFilterActive(kind: string)
      reads this
    {
      filter.kind == kind
    }

    /**
     * `shiftTimeRange(direction)` on the parent's `range`: without both dates
     * nothing happens; otherwise the shifted range becomes the local filter,
     * of type 'shifted', and is emitted once to the parent.
     */
    method ShiftTimeRange(range: DateRange, direction: string) returns (emitted: Option<Range>)
      modifies this
      ensures minDate == old(minDate) && maxDate == old(maxDate)
      ensures range.start.None? || range.end.None? ==> emitted == None && filter == old(filter)
      ensures range.start.Some? && range.end.Some? ==>
        && emitted == Some(Shift(range.start.value, range.end.value, direction, minDate, maxDate))
        && filter == LocalFilter(Some(emitted.value.start), Some(emitted.value.end), "shifted")
    {
      if range.start.None? || range.end.None? {
        return None;
      }
      var currentStartDate := range.start.value;
      var currentEndDate := range.end.value;
      var timeDifference := currentEndDate - currentStartDate;
      var newStartDate, newEndDate;
      if direction == "forward" {
        newStartDate := currentStartDate + timeDifference;
        newEndDate := currentEndDate + timeDifference;
        if maxDate.Some? && newEndDate > maxDate.value {
          newEndDate := maxDate.value;
          newStartDate := newEndDate - timeDifference;
        }
      } else {
        newStartDate := currentStartDate - timeDifference;
        newEndDate := currentEndDate - timeDifference;
        if minDate.Some? && newStartDate < minDate.value {
          newStartDate := minDate.value;
          newEndDate := newStartDate + timeDifference;
        }
      }
      filter := LocalFilter(Some(newStartDate), Some(newEndDate), "shifted");
      emitted := Some(Range(newStartDate, newEndDate));
    }

    /**
     * `handleFilterTypeChange(type)`: a preset becomes the local filter, with
     * the preset's name as its type, and is emitted; otherwise nothing happens.
     */
    method FilterTypeChange(kind: string) returns (emitted: Option<Range>)
      modifies this
      ensures minDate == old(minDate) && maxDate == old(maxDate)
      ensures emitted == QuickRange(kind, maxDate)
      ensures emitted.None? ==> filter == old(filter)
      ensures emitted.Some? ==> filter == LocalFilter(Some(emitted.value.start), Some(emitted.value.end), kind)
    {
      if maxDate.None? {
        return None;
      }
      var today := maxDate.value;
      var start;
      match kind {
        case "min5" => start := today - 5 * 60 * 1000;
        case "min15" => start := today - 15 * 60 * 1000;
        case "hour1" => start := today - 60 * 60 * 1000;
        case "hour4" => start := today - 4 * 60 * 60 * 1000;
        case "hour8" => start := today - 8 * 60 * 60 * 1000;
        case "hour16" => start := today - 16 * 60 * 60 * 1000;
        case "lastDay" => start := today - DayMs;
        case "lastWeek" => start := today - 7 * DayMs;
        case "twoWeeks" => start := today - 14 * DayMs;
        case "lastMonth" => start := today - 30 * DayMs;
        case _ => return None;
      }
      filter := LocalFilter(Some(start), Some(today), kind);
      emitted := Some(Range(start, today));
    }

    /** The slider's `onRangeChange`: the range becomes the local filter, of type 'custom', and is passed on. */
    method SliderChange(range: Range) returns (emitted: Range)
      modifies this
      ensures minDate == old(minDate) && maxDate == old(maxDate)
      ensures emitted == range
      ensures filter == LocalFilter(Some(range.start), Some(range.end), "custom")
    {
      filter := LocalFilter(Some(range.start), Some(range.end), "custom");
      emitted := range;
    }
  }

  /** After a shift, a preset or a slider change the active type is 'shifted', the preset, or 'custom'. */
  method ActiveTypeExample() returns (afterShift: bool, afterPreset: bool, afterSlider: bool)
    ensures afterShift && afterPreset && afterSlider
  {
    var p := new Panel(DateRange(Some(0), Some(HourMs)), Some(0), Some(DayMs));
    var e := p.ShiftTimeRange(DateRange(Some(0), Some(HourMs)), "forward");
    afterShift := p.IsFilterActive("shifted");
    e := p.FilterTypeChange("hour4");
    afterPreset := p.IsFilterActive("hour4");
    var r := p.SliderChange(Range(0, 10));
    afterSlider := p.IsFilterActive("custom");
  }
}
