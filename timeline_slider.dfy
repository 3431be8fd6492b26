/**
 * The timeline slider: a track of `timelineWidth` pixels that shows the
 * instants from `minDate` to `maxDate`, two handles that select a range, tick
 * markers along the track, and the press / move / release gestures that drag
 * a handle or the band between the handles.
 *
 * Instants are milliseconds; pixel positions and fractions are exact reals.
 */
module TimelineSlider {
  import opened Wrappers
  import opened Records

  /** `new Date(x)` keeps the integral part of `x`, truncated toward zero. */
  function Trunc(x: real): (t: int)
    ensures (t as real) <= x ==> x < (t as real) + 1.0
    ensures x < (t as real) ==> (t as real) - 1.0 < x
    ensures x >= 0.0 ==> t as real <= x
    ensures x <= 0.0 ==> x <= t as real
  {
    if x >= 0.0 then x.Floor else -((-x).Floor)
  }

  lemma TruncInt(n: int)
    ensures Trunc(n as real) == n
  {
  }

  /** `Math.max(lo, Math.min(hi, x))` */
  function Clamp(lo: real, hi: real, x: real): (r: real)
    ensures lo <= hi ==> lo <= r <= hi
    ensures r >= lo
    ensures lo <= x <= hi ==> r == x
  {
    if (if hi < x then hi else x) < lo then lo else (if hi < x then hi else x)
  }

  /** The place of `d` in the domain, 0 at `lo` and 1 at `hi`. */
  function Fraction(d: int, lo: int, hi: int): real
    requires lo < hi
  {
    (d - lo) as real / (hi - lo) as real
  }

  /** `dateToPosition(date)`; `None` is a missing date. */
  function DateToPosition(date: Option<int>, minDate: Option<int>, maxDate: Option<int>, width: nat): (p: real)
    ensures 0.0 <= p <= width as real
    ensures date.None? || minDate.None? || maxDate.None? || maxDate.value <= minDate.value ==> p == 0.0
    ensures (date.Some? && minDate.Some? && maxDate.Some? && minDate.value < maxDate.value
             && minDate.value <= date.value <= maxDate.value) ==>
      p == Fraction(date.value, minDate.value, maxDate.value) * width as real
  {
    if date.None? || minDate.None? || maxDate.None? then 0.0
    else
      var totalRange := maxDate.value - minDate.value;
      if totalRange <= 0 then 0.0
      else
        var f := Fraction(date.value, minDate.value, maxDate.value);
        assert minDate.value <= date.value <= maxDate.value ==> 0.0 <= f <= 1.0;
        assert 0.0 <= f <= 1.0 ==> f * width as real <= width as real;
        Clamp(0.0, width as real, f * width as real)
  }

  /**
   * `positionToDate(position)`; with no width or without both dates the source
   * returns the wall-clock time, which is the parameter `now` here.
   */
  function PositionToDate(position: real, minDate: Option<int>, maxDate: Option<int>, width: nat, now: int): (t: int)
    ensures width == 0 || minDate.None? || maxDate.None? ==> t == now
    ensures width > 0 && minDate.Some? && maxDate.Some? && minDate.value <= maxDate.value ==>
      minDate.value <= t <= maxDate.value
  {
    if width <= 0 || minDate.None? || maxDate.None? then now
    else
      var percent := Clamp(0.0, 1.0, position / width as real);
      TimeAtBetween(percent, minDate.value, maxDate.value);
      TimeAt(percent, minDate.value, maxDate.value)
  }

  /** `new Date(minDate + percent * totalRange)`: the instant a fraction of the way through the domain. */
  function TimeAt(percent: real, lo: int, hi: int): int {
    Trunc(lo as real + percent * (hi - lo) as real)
  }

  /** A fraction between 0 and 1 of a non-empty domain lands inside it. */
  lemma TimeAtBetween(percent: real, lo: int, hi: int)
    requires 0.0 <= percent <= 1.0
    ensures lo <= hi ==> lo <= TimeAt(percent, lo, hi) <= hi
  {
    if lo <= hi {
      var totalRange := (hi - lo) as real;
      MulNonneg(percent, totalRange);
      MulNonneg(1.0 - percent, totalRange);
      assert (1.0 - percent) * totalRange == totalRange - percent * totalRange;
      TruncBetween(lo as real + percent * totalRange, lo, hi);
    }
  }

  lemma TruncBetween(x: real, lo: int, hi: int)
    requires lo as real <= x <= hi as real
    ensures lo <= Trunc(x) <= hi
  {
  }

  /** A product of two non-negative reals is non-negative. */
  lemma MulNonneg(a: real, b: real)
    requires a >= 0.0 && b >= 0.0
    ensures a * b >= 0.0
  {
  }

  /**
   * Mapping an instant of the domain to the track and back gives the instant
   * itself: the two conversions are inverse on [minDate, maxDate].
   */
  lemma PositionRoundTrip(d: int, lo: int, hi: int, width: nat, now: int)
    requires lo < hi && lo <= d <= hi && width > 0
    ensures PositionToDate(DateToPosition(Some(d), Some(lo), Some(hi), width), Some(lo), Some(hi), width, now) == d
  {
    var f := Fraction(d, lo, hi);
    var w := width as real;
    FractionInDomain(d, lo, hi);
    var p := DateToPosition(Some(d), Some(lo), Some(hi), width);
    assert p == f * w;
    ScaleBack(f, w);
    assert Clamp(0.0, 1.0, p / w) == f;
    TimeAtExact(f, lo, hi, d);
  }

  /** An instant of the domain sits at a fraction between 0 and 1 that scales back to its offset. */
  lemma FractionInDomain(d: int, lo: int, hi: int)
    requires lo < hi && lo <= d <= hi
    ensures 0.0 <= Fraction(d, lo, hi) <= 1.0
    ensures Fraction(d, lo, hi) * (hi - lo) as real == (d - lo) as real
  {
    FractionOfTrack((d - lo) as real, (hi - lo) as real);
  }

  lemma ScaleBack(f: real, w: real)
    requires w > 0.0
    ensures (f * w) / w == f
  {
  }

  /** The fraction that scales back to the offset of `d` gives `d` itself. */
  lemma TimeAtExact(f: real, lo: int, hi: int, d: int)
    requires f * (hi - lo) as real == (d - lo) as real
    ensures TimeAt(f, lo, hi) == d
  {
    TruncInt(d);
  }

  // ---------------------------------------------------------------------------
  // tick markers

  /** A tick on the track: its position and its instant (the label is locale text). */
  datatype Marker = Marker(position: real, time: int)

  /** The tick spacing for a domain of `totalDuration` ms. */
  function StepFor(totalDuration: int): (step: int)
    ensures KnownStep(step)
    ensures totalDuration <= DayMs ==> step == HourMs
    ensures DayMs < totalDuration <= 7 * DayMs ==> step == 6 * HourMs
    ensures 7 * DayMs < totalDuration <= 30 * DayMs ==> step == DayMs
    ensures 30 * DayMs < totalDuration ==> step == WeekMs
  {
    if totalDuration <= 24 * 60 * 60 * 1000 then 60 * 60 * 1000
    else if totalDuration <= 7 * 24 * 60 * 60 * 1000 then 6 * 60 * 60 * 1000
    else if totalDuration <= 30 * 24 * 60 * 60 * 1000 then 24 * 60 * 60 * 1000
    else 7 * 24 * 60 * 60 * 1000
  }

  predicate KnownStep(step: int) {
    step == HourMs || step == 6 * HourMs || step == DayMs || step == WeekMs
  }

  /** Only every third tick below 400 px, every second below 600 px. */
  function SkipFor(width: nat): (skip: nat)
    ensures 1 <= skip <= 3
  {
    if width < 400 then 3 else if width < 600 then 2 else 1
  }

  /** A tick is shown when its index is a multiple of the skip factor or it falls on either end. */
  predicate Shown(index: nat, time: int, lo: int, hi: int, skip: nat)
    requires skip > 0
  {
    index % skip == 0 || time == lo || time == hi
  }

  /**
   * The markers of the ticks from `time` (the tick with index `index`) to
   * `hi`, one step apart.
   */
  function MarkersFrom(time: int, index: nat, lo: int, hi: int, step: int, skip: nat, width: nat): (ms: seq<Marker>)
    requires step > 0 && skip > 0
    decreases hi - time
  {
    if time > hi then []
    else
      var rest := MarkersFrom(time + step, index + 1, lo, hi, step, skip, width);
      if Shown(index, time, lo, hi, skip)
      then [Marker(DateToPosition(Some(time), Some(lo), Some(hi), width), time)] + rest
      else rest
  }

  /** `generateTimeMarkers()` as a value. */
  function Markers(minDate: Option<int>, maxDate: Option<int>, width: nat): seq<Marker> {
    if minDate.None? || maxDate.None? || width == 0 then []
    else
      var lo := minDate.value;
      var hi := maxDate.value;
      MarkersFrom(lo, 0, lo, hi, StepFor(hi - lo), SkipFor(width), width)
  }

  function Times(ms: seq<Marker>): (ts: seq<int>)
    ensures |ts| == |ms|
    ensures forall i :: 0 <= i < |ms| ==> ts[i] == ms[i].time
  {
    if |ms| == 0 then [] else [ms[0].time] + Times(ms[1..])
  }

  /** Marker instants rise strictly, lie in [time, hi], and each sits at its instant's position. */
  lemma {:induction false} MarkersOrdered(time: int, index: nat, lo: int, hi: int, step: int, skip: nat, width: nat)
    requires step > 0 && skip > 0
    ensures forall m :: m in MarkersFrom(time, index, lo, hi, step, skip, width) ==>
      time <= m.time <= hi && m.position == DateToPosition(Some(m.time), Some(lo), Some(hi), width)
    ensures forall i, j :: 0 <= i < j < |MarkersFrom(time, index, lo, hi, step, skip, width)| ==>
      MarkersFrom(time, index, lo, hi, step, skip, width)[i].time < MarkersFrom(time, index, lo, hi, step, skip, width)[j].time
    decreases hi - time
  {
    if time <= hi {
      MarkersOrdered(time + step, index + 1, lo, hi, step, skip, width);
      var rest := MarkersFrom(time + step, index + 1, lo, hi, step, skip, width);
      var ms := MarkersFrom(time, index, lo, hi, step, skip, width);
      if Shown(index, time, lo, hi, skip) {
        assert ms == [Marker(DateToPosition(Some(time), Some(lo), Some(hi), width), time)] + rest;
        forall i, j | 0 <= i < j < |ms| ensures ms[i].time < ms[j].time {
          assert ms[j] == rest[j - 1] && ms[j] in rest;
          if i > 0 {
            assert ms[i] == rest[i - 1];
          }
        }
      }
    }
  }

  /**
   * The exact set of marker instants: `x` is one exactly when it is a tick
   * between `time` and `hi` (a whole number of steps from `time`) that is shown.
   */
  lemma {:induction false} MarkersExactly(time: int, index: nat, lo: int, hi: int, step: int, skip: nat, width: nat, x: int)
    requires KnownStep(step) && skip > 0
    requires time - lo == index * step
    ensures x in Times(MarkersFrom(time, index, lo, hi, step, skip, width)) <==>
      time <= x <= hi && (x - time) % step == 0 && Shown((x - lo) / step, x, lo, hi, skip)
    decreases hi - time
  {
    if time <= hi {
      var rest := MarkersFrom(time + step, index + 1, lo, hi, step, skip, width);
      assert time + step - lo == (index + 1) * step;
      MarkersExactly(time + step, index + 1, lo, hi, step, skip, width, x);
      StepArithmetic(time, lo, index, step, x);
      if Shown(index, time, lo, hi, skip) {
        var m := Marker(DateToPosition(Some(time), Some(lo), Some(hi), width), time);
        assert MarkersFrom(time, index, lo, hi, step, skip, width) == [m] + rest;
        assert Times([m] + rest) == [time] + Times(rest);
      } else {
        assert MarkersFrom(time, index, lo, hi, step, skip, width) == rest;
      }
    }
  }

  /** Steps of one of the four known sizes, by cases so that the arithmetic is linear. */
  lemma StepArithmetic(time: int, lo: int, index: nat, step: int, x: int)
    requires KnownStep(step) && time - lo == index * step
    ensures x == time ==> (x - lo) / step == index && (x - time) % step == 0
    ensures time < x && (x - time) % step == 0 ==> time + step <= x
    ensures (x - time) % step == 0 <==> (x - (time + step)) % step == 0
  {
    if step == HourMs {
      StepHour(time, lo, index, x);
    } else if step == 6 * HourMs {
      StepSixHours(time, lo, index, x);
    } else if step == DayMs {
      StepDay(time, lo, index, x);
    } else {
      StepWeek(time, lo, index, x);
    }
  }

  lemma StepHour(time: int, lo: int, index: nat, x: int)
    requires time - lo == index * (HourMs)
    ensures x == time ==> (x - lo) / (HourMs) == index && (x - time) % (HourMs) == 0
    ensures time < x && (x - time) % (HourMs) == 0 ==> time + HourMs <= x
    ensures (x - time) % (HourMs) == 0 <==> (x - (time + HourMs)) % (HourMs) == 0
  {
  }

  lemma StepSixHours(time: int, lo: int, index: nat, x: int)
    requires time - lo == index * (6 * HourMs)
    ensures x == time ==> (x - lo) / (6 * HourMs) == index && (x - time) % (6 * HourMs) == 0
    ensures time < x && (x - time) % (6 * HourMs) == 0 ==> time + 6 * HourMs <= x
    ensures (x - time) % (6 * HourMs) == 0 <==> (x - (time + 6 * HourMs)) % (6 * HourMs) == 0
  {
  }

  lemma StepDay(time: int, lo: int, index: nat, x: int)
    requires time - lo == index * (DayMs)
    ensures x == time ==> (x - lo) / (DayMs) == index && (x - time) % (DayMs) == 0
    ensures time < x && (x - time) % (DayMs) == 0 ==> time + DayMs <= x
    ensures (x - time) % (DayMs) == 0 <==> (x - (time + DayMs)) % (DayMs) == 0
  {
  }

  lemma StepWeek(time: int, lo: int, index: nat, x: int)
    requires time - lo == index * (WeekMs)
    ensures x == time ==> (x - lo) / (WeekMs) == index && (x - time) % (WeekMs) == 0
    ensures time < x && (x - time) % (WeekMs) == 0 ==> time + WeekMs <= x
    ensures (x - time) % (WeekMs) == 0 <==> (x - (time + WeekMs)) % (WeekMs) == 0
  {
  }

  /**
   * With both dates and a width, the first marker is at `minDate`, and
   * `maxDate` gets a marker exactly when the domain is a whole number of
   * steps long.
   */
  lemma MarkersEnds(lo: int, hi: int, width: nat)
    requires lo <= hi && width > 0
    ensures var ms := Markers(Some(lo), Some(hi), width);
      |ms| > 0 && ms[0].time == lo
      && (hi in Times(ms) <==> (hi - lo) % StepFor(hi - lo) == 0)
  {
    var step := StepFor(hi - lo);
    assert lo - lo == 0 * step;
    MarkersExactly(lo, 0, lo, hi, step, SkipFor(width), width, hi);
  }

  // ---------------------------------------------------------------------------
  // the component and its gestures

  /** `currentRange`: the selected dates, either of which may be missing. */
  datatype DateRange = DateRange(start: Option<int>, end: Option<int>)

  /** The range handed to `onRangeChange`. */
  datatype Range = Range(start: int, end: int)

  /** `dragging`: null, 'start', 'end' or 'range'. */
  datatype Drag = Idle | StartHandle | EndHandle | Band

  datatype Device = Mouse | Touch

  /**
   * What the handlers of one gesture see through the closure created at press
   * time: the mouse's x at press, both handle positions, the track width and
   * the two dates.
   */
  datatype Gesture = Gesture(device: Device, pressX: real, anchorStart: real, anchorEnd: real,
                             width: nat, minDate: Option<int>, maxDate: Option<int>)

  /** The release handlers emit only with a width and both dates. */
  predicate CanEmit(g: Gesture) {
    g.width > 0 && g.minDate.Some? && g.maxDate.Some?
  }

  /** `new Date(minDate + (pos / timelineWidth) * totalRange)`: no clamp here. */
  function Interpolate(pos: real, lo: int, hi: int, width: nat): int
    requires width > 0
  {
    TimeAt(pos / width as real, lo, hi)
  }

  /** On the track, the release interpolation is `positionToDate`. */
  lemma InterpolateOnTrack(pos: real, lo: int, hi: int, width: nat, now: int)
    requires width > 0 && 0.0 <= pos <= width as real
    ensures Interpolate(pos, lo, hi, width) == PositionToDate(pos, Some(lo), Some(hi), width, now)
  {
    FractionOfTrack(pos, width as real);
    assert Clamp(0.0, 1.0, pos / width as real) == pos / width as real;
  }

  /** A position on a track of positive width is a fraction between 0 and 1 of it. */
  lemma FractionOfTrack(pos: real, w: real)
    requires 0.0 < w && 0.0 <= pos <= w
    ensures 0.0 <= pos / w <= 1.0
  {
    var q := pos / w;
    assert q * w == pos;
  }

  /** The reconciliation target of a date: its unclamped place on the track. */
  function TrackPosition(d: Option<int>, minDate: Option<int>, maxDate: Option<int>, width: nat): Option<real> {
    if d.None? || minDate.None? || maxDate.None? || maxDate.value - minDate.value <= 0 then None
    else Some(Fraction(d.value, minDate.value, maxDate.value) * width as real)
  }

  /**
   * The band drag: both handles move by `delta`; a band pushed past the left
   * end restarts at 0, one pushed past the right end stops at the track end.
   */
  function BandMove(anchorStart: real, anchorEnd: real, delta: real, rectWidth: real): (r: (real, real))
    ensures r.1 - r.0 == anchorEnd - anchorStart
    ensures 0.0 <= anchorEnd - anchorStart <= rectWidth ==> 0.0 <= r.0 && r.1 <= rectWidth
  {
    var rangeWidth := anchorEnd - anchorStart;
    var s0 := anchorStart + delta;
    var e0 := anchorEnd + delta;
    var s1 := if s0 < 0.0 then 0.0 else s0;
    var e1 := if s0 < 0.0 then rangeWidth else e0;
    var e2 := if e1 > rectWidth then rectWidth else e1;
    var s2 := if e1 > rectWidth then e2 - rangeWidth else s1;
    (s2, e2)
  }

  class Slider {
    /** `timelineWidth`, the track's `offsetWidth` */
    var width: nat
    var minDate: Option<int>
    var maxDate: Option<int>
    /** `startHandlePos` and `endHandlePos` */
    var startPos: real
    var endPos: real
    var dragging: Drag
    /** `preventUpdateRef.current` */
    var guard: bool
    /** Guard-clearing timers scheduled and not yet fired. */
    var pendingClears: nat
    /** The closure of the latest press. */
    var gesture: Gesture

    /**
     * During a handle drag the other handle stays where it was at press; during
     * a band drag the band keeps the width it had at press.
     */
    ghost predicate Valid()
      reads this
    {
      (dragging == StartHandle ==> endPos == gesture.anchorEnd)
      && (dragging == EndHandle ==> startPos == gesture.anchorStart)
      && (dragging == Band ==> endPos - startPos == gesture.anchorEnd - gesture.anchorStart)
    }

    /** The first render: no width yet, handles at 0 and 100, nothing dragged. */
    constructor(minDate: Option<int>, maxDate: Option<int>)
      ensures Valid()
      ensures this.minDate == minDate && this.maxDate == maxDate && width == 0
      ensures startPos == 0.0 && endPos == 100.0 && dragging == Idle && !guard && pendingClears == 0
    {
      this.minDate := minDate;
      this.maxDate := maxDate;
      width := 0;
      startPos := 0.0;
      endPos := 100.0;
      dragging := Idle;
      guard := false;
      pendingClears := 0;
      gesture := Gesture(Mouse, 0.0, 0.0, 100.0, 0, None, None);
    }

    /** The resize listener: the track's new width. */
    method Resize(w: nat)
      requires Valid()
      modifies this
      ensures Valid()
      ensures width == w
      ensures startPos == old(startPos) && endPos == old(endPos) && dragging == old(dragging)
      ensures guard == old(guard) && pendingClears == old(pendingClears) && gesture == old(gesture)
      ensures minDate == old(minDate) && maxDate == old(maxDate)
    {
      width := w;
    }

    /** New `minDate`/`maxDate` props. */
    method SetDomain(lo: Option<int>, hi: Option<int>)
      requires Valid()
      modifies this
      ensures Valid()
      ensures minDate == lo && maxDate == hi
      ensures startPos == old(startPos) && endPos == old(endPos) && dragging == old(dragging)
      ensures guard == old(guard) && pendingClears == old(pendingClears) && gesture == old(gesture)
      ensures width == old(width)
    {
      minDate := lo;
      maxDate := hi;
    }

    /**
     * The reconciliation effect for `currentRange`: only with no drag, a clear
     * guard and a width are the handles placed at the range's dates, the start
     * kept 10 px short of the track end and the end 10 px past its start.
     */
    method Sync(current: DateRange)
      requires Valid()
      modifies this
      ensures Valid()
      ensures width == old(width) && minDate == old(minDate) && maxDate == old(maxDate)
      ensures dragging == old(dragging) && guard == old(guard) && pendingClears == old(pendingClears)
      ensures gesture == old(gesture)
      ensures dragging != Idle || guard || width == 0 ==> startPos == old(startPos) && endPos == old(endPos)
      ensures dragging == Idle && !guard && width > 0 ==>
        startPos == (match TrackPosition(current.start, minDate, maxDate, width)
                     case Some(p) => Clamp(0.0, width as real - 10.0, p)
                     case None => old(startPos))
        && endPos == (match TrackPosition(current.end, minDate, maxDate, width)
                      case Some(p) => Clamp(10.0, width as real, p)
                      case None => old(endPos))
    {
      if dragging == Idle && !guard && width > 0 {
        var target := TrackPosition(current.start, minDate, maxDate, width);
        if target.Some? {
          startPos := Clamp(0.0, width as real - 10.0, target.value);
        }
        target := TrackPosition(current.end, minDate, maxDate, width);
        if target.Some? {
          endPos := Clamp(10.0, width as real, target.value);
        }
      }
    }

    /**
     * A press on a handle or on the band: the drag kind is set, the guard is
     * raised, and the handlers of the gesture capture the current state.
     */
    method Press(kind: Drag, device: Device, x: real)
      requires kind != Idle
      modifies this
      ensures Valid()
      ensures dragging == kind && guard
      ensures gesture == Gesture(device, x, old(startPos), old(endPos), old(width), old(minDate), old(maxDate))
      ensures startPos == old(startPos) && endPos == old(endPos) && pendingClears == old(pendingClears)
      ensures width == old(width) && minDate == old(minDate) && maxDate == old(maxDate)
    {
      dragging := kind;
      guard := true;
      gesture := Gesture(device, x, startPos, endPos, width, minDate, maxDate);
    }

    /**
     * A mouse move to `x` over a track whose bounding box is `rectWidth`
     * wide. A start-handle move keeps 8 px before the end handle and never
     * leaves 0; an end-handle move keeps 8 px after the start handle and stays
     * within the box; a band move keeps the band's width.
     */
    method Move(x: real, rectWidth: real)
      requires Valid()
      modifies this
      ensures Valid()
      ensures dragging == old(dragging) && guard == old(guard) && pendingClears == old(pendingClears)
      ensures gesture == old(gesture) && width == old(width) && minDate == old(minDate) && maxDate == old(maxDate)
      ensures var delta := x - gesture.pressX;
        && (dragging == Idle ==> startPos == old(startPos) && endPos == old(endPos))
        && (dragging == StartHandle ==>
              startPos == Clamp(0.0, gesture.anchorEnd - 8.0, gesture.anchorStart + delta) && endPos == old(endPos))
        && (dragging == EndHandle ==>
              endPos == Clamp(gesture.anchorStart + 8.0, rectWidth, gesture.anchorEnd + delta) && startPos == old(startPos))
        && (dragging == Band ==>
              (startPos, endPos) == BandMove(gesture.anchorStart, gesture.anchorEnd, delta, rectWidth))
      ensures dragging == StartHandle ==> startPos >= 0.0 && (endPos >= 8.0 ==> endPos - startPos >= 8.0)
      ensures dragging == EndHandle ==> endPos - startPos >= 8.0
      ensures dragging == Band ==> endPos - startPos == old(endPos) - old(startPos)
      ensures dragging == Band && 0.0 <= endPos - startPos <= rectWidth ==> 0.0 <= startPos && endPos <= rectWidth
    {
      var deltaX := x - gesture.pressX;
      if dragging == StartHandle {
        startPos := Clamp(0.0, gesture.anchorEnd - 8.0, gesture.anchorStart + deltaX);
      } else if dragging == EndHandle {
        endPos := Clamp(gesture.anchorStart + 8.0, rectWidth, gesture.anchorEnd + deltaX);
      } else if dragging == Band {
        var rangeWidth := gesture.anchorEnd - gesture.anchorStart;
        var newStartPos := gesture.anchorStart + deltaX;
        var newEndPos := gesture.anchorEnd + deltaX;
        if newStartPos < 0.0 {
          newStartPos := 0.0;
          newEndPos := rangeWidth;
        }
        if newEndPos > rectWidth {
          newEndPos := rectWidth;
          newStartPos := newEndPos - rangeWidth;
        }
        startPos := newStartPos;
        endPos := newEndPos;
      }
    }

    /**
     * The release of a gesture, as written: the drag ends; with a width and
     * both dates at press time, the range of the handle positions AT PRESS is
     * emitted and a guard-clearing timer is scheduled (100 ms after a mouse
     * press, 200 ms after a touch); otherwise nothing is emitted and the guard
     * stays raised.
     */
    method Release() returns (emitted: Option<Range>, delay: Option<nat>)
      requires Valid()
      modifies this
      ensures Valid()
      ensures dragging == Idle && guard == old(guard) && gesture == old(gesture)
      ensures startPos == old(startPos) && endPos == old(endPos)
      ensures width == old(width) && minDate == old(minDate) && maxDate == old(maxDate)
      ensures old(dragging) == Idle || !CanEmit(gesture) ==>
        emitted == None && delay == None && pendingClears == old(pendingClears)
      ensures old(dragging) != Idle && CanEmit(gesture) ==>
        var g := gesture;
        && emitted == Some(Range(Interpolate(g.anchorStart, g.minDate.value, g.maxDate.value, g.width),
                                 Interpolate(g.anchorEnd, g.minDate.value, g.maxDate.value, g.width)))
        && delay == Some(if g.device == Mouse then 100 else 200)
        && pendingClears == old(pendingClears) + 1
    {
      emitted, delay := None, None;
      if dragging == Idle {
        return;
      }
      var g := gesture;
      if g.width > 0 && g.minDate.Some? && g.maxDate.Some? {
        var newStart := Interpolate(g.anchorStart, g.minDate.value, g.maxDate.value, g.width);
        var newEnd := Interpolate(g.anchorEnd, g.minDate.value, g.maxDate.value, g.width);
        emitted := Some(Range(newStart, newEnd));
        delay := Some(if g.device == Mouse then 100 else 200);
        pendingClears := pendingClears + 1;
      }
      dragging := Idle;
    }

    /**
     * The release as evidently intended: the range of the handle positions
     * the user dragged to, with the track and dates of the moment of release.
     */
    method ReleaseIntended() returns (emitted: Option<Range>, delay: Option<nat>)
      requires Valid()
      modifies this
      ensures Valid()
      ensures dragging == Idle && guard == old(guard) && gesture == old(gesture)
      ensures startPos == old(startPos) && endPos == old(endPos)
      ensures width == old(width) && minDate == old(minDate) && maxDate == old(maxDate)
      ensures old(dragging) == Idle || width == 0 || minDate.None? || maxDate.None? ==>
        emitted == None && delay == None && pendingClears == old(pendingClears)
      ensures old(dragging) != Idle && width > 0 && minDate.Some? && maxDate.Some? ==>
        && emitted == Some(Range(Interpolate(startPos, minDate.value, maxDate.value, width),
                                 Interpolate(endPos, minDate.value, maxDate.value, width)))
        && delay == Some(if gesture.device == Mouse then 100 else 200)
        && pendingClears == old(pendingClears) + 1
    {
      emitted, delay := None, None;
      if dragging == Idle {
        return;
      }
      if width > 0 && minDate.Some? && maxDate.Some? {
        var newStart := Interpolate(startPos, minDate.value, maxDate.value, width);
        var newEnd := Interpolate(endPos, minDate.value, maxDate.value, width);
        emitted := Some(Range(newStart, newEnd));
        delay := Some(if gesture.device == Mouse then 100 else 200);
        pendingClears := pendingClears + 1;
      }
      dragging := Idle;
    }

    /**
     * One scheduled timer fires and lowers the guard. Earlier timers are never
     * cancelled, so this can lower the guard of a later gesture too.
     */
    method Settle()
      requires Valid()
      modifies this
      ensures Valid()
      ensures old(pendingClears) > 0 ==> pendingClears == old(pendingClears) - 1 && !guard
      ensures old(pendingClears) == 0 ==> pendingClears == 0 && guard == old(guard)
      ensures startPos == old(startPos) && endPos == old(endPos) && dragging == old(dragging)
      ensures gesture == old(gesture) && width == old(width) && minDate == old(minDate) && maxDate == old(maxDate)
    {
      if pendingClears > 0 {
        pendingClears := pendingClears - 1;
        guard := false;
      }
    }

    /** `generateTimeMarkers()`: the `for` loop over the ticks. */
    method GenerateTimeMarkers() returns (markers: seq<Marker>)
      ensures markers == Markers(minDate, maxDate, width)
    {
      if minDate.None? || maxDate.None? || width == 0 {
        return [];
      }
      var totalDuration := maxDate.value - minDate.value;
      var step := StepFor(totalDuration);
      var skipFactor := 1;
      if width < 400 {
        skipFactor := 3;
      } else if width < 600 {
        skipFactor := 2;
      }
      markers := CollectMarkers(minDate.value, maxDate.value, step, skipFactor, width);
    }
  }

  /** The `for` loop of `generateTimeMarkers()`, from `minDate` to `maxDate` in steps of `step`. */
  method CollectMarkers(lo: int, hi: int, step: int, skipFactor: nat, width: nat) returns (markers: seq<Marker>)
    requires step > 0 && skipFactor > 0
    ensures markers == MarkersFrom(lo, 0, lo, hi, step, skipFactor, width)
  {
    markers := [];
    var markerCount := 0;
    var time := lo;
    while time <= hi
      invariant markers + MarkersFrom(time, markerCount, lo, hi, step, skipFactor, width)
        == MarkersFrom(lo, 0, lo, hi, step, skipFactor, width)
      decreases hi - time
    {
      ghost var rest := MarkersFrom(time + step, markerCount + 1, lo, hi, step, skipFactor, width);
      if markerCount % skipFactor != 0 && time != lo && time != hi {
        markerCount := markerCount + 1;
        time := time + step;
        continue;
      }
      var position := DateToPosition(Some(time), Some(lo), Some(hi), width);
      assert MarkersFrom(time, markerCount, lo, hi, step, skipFactor, width) == [Marker(position, time)] + rest;
      markers := markers + [Marker(position, time)];
      markerCount := markerCount + 1;
      time := time + step;
    }
    assert markers + [] == markers;
  }

  /**
   * A drag of the start handle from 0 to 50 px on a 100 px track over
   * [0, 100000] ms, then a release: the handle shows 50 px, but the emitted
   * range still starts at 0 ms, the position at press.
   */
  method StaleReleaseExample() returns (shown: real, emitted: Option<Range>)
    ensures shown == 50.0 && emitted == Some(Range(0, 100_000))
  {
    var s := new Slider(Some(0), Some(100_000));
    s.Resize(100);
    s.Sync(DateRange(Some(0), Some(100_000)));
    s.Press(StartHandle, Mouse, 0.0);
    s.Move(50.0, 100.0);
    shown := s.startPos;
    var delay;
    emitted, delay := s.Release();
    TruncInt(0);
    TruncInt(100_000);
  }

  /** The same gesture with the intended release emits the range the handles show. */
  method IntendedReleaseExample() returns (shown: real, emitted: Option<Range>)
    ensures shown == 50.0 && emitted == Some(Range(50_000, 100_000))
  {
    var s := new Slider(Some(0), Some(100_000));
    s.Resize(100);
    s.Sync(DateRange(Some(0), Some(100_000)));
    s.Press(StartHandle, Mouse, 0.0);
    s.Move(50.0, 100.0);
    shown := s.startPos;
    var delay;
    emitted, delay := s.ReleaseIntended();
    TruncInt(50_000);
    TruncInt(100_000);
  }

  /**
   * With the intended release, handles placed at the instants of a range
   * within the domain emit exactly that range.
   */
  lemma IntendedReleaseRoundTrip(lo: int, hi: int, width: nat, a: int, b: int)
    requires lo < hi && width > 0 && lo <= a <= hi && lo <= b <= hi
    ensures Interpolate(DateToPosition(Some(a), Some(lo), Some(hi), width), lo, hi, width) == a
    ensures Interpolate(DateToPosition(Some(b), Some(lo), Some(hi), width), lo, hi, width) == b
  {
    InterpolateOnTrack(DateToPosition(Some(a), Some(lo), Some(hi), width), lo, hi, width, 0);
    PositionRoundTrip(a, lo, hi, width, 0);
    InterpolateOnTrack(DateToPosition(Some(b), Some(lo), Some(hi), width), lo, hi, width, 0);
    PositionRoundTrip(b, lo, hi, width, 0);
  }
}
