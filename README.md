# AFM dashboard core, modelled in Dafny

The AFM dashboard is a React application. It reads four CSV logs of an
automatic file monitor: the status log, the error log, the input details and
the pattern matches. From these it derives statistics, health figures and
chart data. A floating timeline panel with a two-handle slider chooses the
time window, and a grid of widgets can be dragged and collapsed.

This project models the logic of that core, module by module:

- `DataLoader`: the CSV parser.
- `DataProcessor`:
  - grouping errors by type;
  - file counts per timestamp;
  - the status statistics, newest versus oldest snapshot;
  - the pattern-match analysis.
- `ErrorTypeUtils`:
  - normalising error-type text, including the repair of the mis-decoded "ZeitÃ¼berschreitung";
  - categorising into critical, warning or info;
  - the colour table;
  - extracting the type of a record.
- `AdvancedMetrics`: error rate, throughput, error trend, the system-health score, the hour and weekday histograms, and the weekday × hour heatmap.
- `StatusIndicator`: the threshold logic of the status badge.
- `PatternMatchWidget`: the pie-chart slices.
- `TimelineSlider`: the slider. It is a class with handle positions, a drag session and the "do not resync just after a release" guard. It also has the date↔pixel mappings and the time-axis markers.
- `TimelinePanel`: the panel. It has the duration text, shifting the window by its own length, the quick presets, and the panel's local filter state.
- `App`: date filtering, the global minimum and maximum dates, and the dashboard state that installs the default one-day window on the first load.
- `WidgetGrid`: the saved-layout loader, the collapse/expand of a widget across all breakpoints, and the reset.

Shared modules:

- `Wrappers`: `Option`.
- `Text`: JavaScript string operations on `seq<char>` (split, join, trim, replace-all, `parseInt`).
- `Records`: records as ordered field lists, rows with their parsed local time, and time constants.
- `Seqs`: sums, subsequences, and a stable insertion sort standing for `Array.prototype.sort`.

Conventions:

- Instants are integer milliseconds. `new Date(x)` truncates toward zero (`TimelineSlider.Trunc`).
- Pixel positions and rates are exact `real`s.
- JavaScript `%` truncates toward zero (`TimelinePanel.JsRem`).
- A CSV record keeps its columns in header order, so `Object.keys` order is part of the model.
- Parsing `Zeitpunkt` and reading its local hour and weekday is done by the host. Each row therefore carries an optional `LocalTime` (`None` is an invalid date).

## Model

| member | source | states |
|---|---|---|
| DataLoader.BuildEntry | src/utils/DataLoader.jsx:45-52 | the loop building one record gives the header-ordered record, with one field per distinct header |
| DataLoader.EntryKeys | src/utils/DataLoader.jsx:49-51 | a record has a field exactly for each header |
| DataLoader.EntryValue | src/utils/DataLoader.jsx:49-51 | the field of the last header with a given name holds that column's value, or "" when the line is short |
| DataLoader.DataLines | src/utils/DataLoader.jsx:43-44 | every kept data line is non-blank after trimming |
| DataLoader.DataLinesKeepsNonBlank | src/utils/DataLoader.jsx:43-44 | the kept lines are a subsequence of the input; each non-blank line is kept as often as it occurs and no blank line is kept; all lines are kept when none is blank |
| DataLoader.Entries | src/utils/DataLoader.jsx:45-52 | one record per data line |
| DataLoader.ParseCsvHeaderOnly | src/utils/DataLoader.jsx:34-44 | text with no newline (header only) gives no records |
| DataLoader.ParseCsvRender | src/utils/DataLoader.jsx:32-55 | round trip: rendering a header and rows as ';'/'\n' text and parsing it gives back one record per row, each with the header's fields and the row's cells |
| DataLoader.RenderRowsShape | src/utils/DataLoader.jsx:34-46 | rendered rows are the joined cells, contain no newline and are non-blank |
| DataLoader.EntriesRendered | src/utils/DataLoader.jsx:45-52 | parsing rendered rows gives each row's record |
| DataLoader.CarriageReturnStays | src/utils/DataLoader.jsx:34-46 | CRLF input keeps the '\r' on the last header and the last cell, as the status reader expects |
| DataLoader.ParseTwoColumns | src/utils/DataLoader.jsx:34-52 | a header line and one data line of two separator-free cells, each ended by a line break, parse to the single record pairing each column with its cell, nothing trimmed |
| DataProcessor.AddToGroup | src/utils/DataProcessor.jsx:14-21 | adding an item creates at most one new group |
| DataProcessor.AddToGroupOf | src/utils/DataProcessor.jsx:14-21 | adding an item appends it to its key's group only |
| DataProcessor.AddToGroupKeys | src/utils/DataProcessor.jsx:16-18 | a new key is appended after the existing keys; a known key leaves the key order unchanged |
| DataProcessor.FilterCounts | src/utils/DataProcessor.jsx:11-25 | filtering on a key keeps each item with that key as often as it occurs and no other item |
| DataProcessor.FilterKeepsAll | src/utils/AdvancedMetrics.jsx:251-253 | filtering items that all have the key keeps them all |
| DataProcessor.GroupByContents | src/utils/DataProcessor.jsx:11-25 | the group of key k is exactly the items with key k, in input order |
| DataProcessor.GroupByKeys | src/utils/DataProcessor.jsx:11-25 | k is a group key iff some item has key k |
| DataProcessor.GroupByShape | src/utils/DataProcessor.jsx:11-25 | keys are distinct and the group sizes add up to the number of items |
| DataProcessor.GroupErrorsByType | src/utils/DataProcessor.jsx:11-25 | the loop equals the grouping by `Fehlermeldung` (default "Unbekannt"), with distinct keys, every item placed once, and each group the filtered input |
| DataProcessor.FileCountOf | src/utils/DataProcessor.jsx:33-37 | the timestamp is the record's `Zeitpunkt` |
| DataProcessor.CountFilesByTimestamp | src/utils/DataProcessor.jsx:32-38 | one file-count entry per record, in order |
| DataProcessor.FileCountFields | src/utils/DataProcessor.jsx:35-36 | the file names joined by ',' give back `Dateinamen`, one more name than commas, none for a missing or empty field; a decimal `Anzahl` reads as its value and a missing one as 0 |
| DataProcessor.FindKey | src/utils/DataProcessor.jsx:69 | the first key with the prefix; None iff no key has it |
| DataProcessor.StatusStatisticsEmpty | src/utils/DataProcessor.jsx:46-55 | no status records give no snapshots and zero differences |
| DataProcessor.StatusStatisticsBounds | src/utils/DataProcessor.jsx:57-111 | the latest snapshot is a record with the greatest time, the start snapshot one with the least time, and each diff is latest minus start |
| DataProcessor.StatusStatisticsSingle | src/utils/DataProcessor.jsx:57-111 | a single record gives zero differences |
| DataProcessor.ErrorCountIgnoresCr | src/utils/DataProcessor.jsx:68-82 | an `Error\r` column with a '\r'-terminated number reads as that number |
| DataProcessor.ErrorCountMissing | src/utils/DataProcessor.jsx:80-82 | a record without an `Error...` column has error count 0 |
| DataProcessor.CountsOf | src/utils/DataProcessor.jsx:142-146 | each pattern entry has its group's key, its size, and the first up to three records as examples |
| DataProcessor.AnalyzePatternMatches | src/utils/DataProcessor.jsx:127-156 | the method computes the pattern analysis of the records |
| DataProcessor.PatternAnalysisTotals | src/utils/DataProcessor.jsx:149-154 | counts are ordered most frequent first, sum to the total, and the total is the number of records |
| DataProcessor.PatternAnalysisTypes | src/utils/DataProcessor.jsx:131-146 | there is an entry for type k iff some record has pattern type k |
| DataProcessor.PatternAnalysisEntry | src/utils/DataProcessor.jsx:131-146 | the entry for k counts the records of type k and its examples are the first up to three of them |
| DataProcessor.SumCountsSort | src/utils/DataProcessor.jsx:149 | sorting the counts keeps their sum |
| DataProcessor.SortKeepsKinds | src/utils/DataProcessor.jsx:149 | sorting the counts neither adds nor drops a type |
| ErrorTypeUtils.Normalize | src/utils/ErrorTypeUtils.jsx:10-19 | the normalised type is never empty |
| ErrorTypeUtils.RepairRemoves | src/utils/ErrorTypeUtils.jsx:15-16 | after the repair neither "ZeitÃ¼berschreitung" nor "Verbindung von peer" remains |
| ErrorTypeUtils.NormalizeKeepsPlainText | src/utils/ErrorTypeUtils.jsx:10-19 | a non-empty text without either form is returned unchanged |
| ErrorTypeUtils.NormalizeIdempotent | src/utils/ErrorTypeUtils.jsx:10-19 | normalising twice equals normalising once |
| ErrorTypeUtils.NormalizeRepairsMojibake | src/utils/ErrorTypeUtils.jsx:15 | "ZeitÃ¼berschreitung" becomes "Zeitüberschreitung" |
| ErrorTypeUtils.Categorize | src/utils/ErrorTypeUtils.jsx:26-38 | critical iff a critical keyword occurs; warning iff not critical and a warning keyword occurs; info otherwise |
| ErrorTypeUtils.CategorizeIsCaseSensitive | src/utils/ErrorTypeUtils.jsx:26-38 | keyword matching is case sensitive ("TIMEOUT" is info, "Timeout" critical) |
| ErrorTypeUtils.CapitalsAreInfo | src/utils/ErrorTypeUtils.jsx:26-38 | a text written in capital letters contains none of the keywords and is informational |
| ErrorTypeUtils.MojibakeIsCriticalAfterNormalize | src/utils/ErrorTypeUtils.jsx:10-38 | a mis-decoded timeout is critical once normalised |
| ErrorTypeUtils.GetErrorTypeColor | src/utils/ErrorTypeUtils.jsx:71-74 | a colour is always produced |
| ErrorTypeUtils.ColorFallbacks | src/utils/ErrorTypeUtils.jsx:71-74 | an unknown type uses the default colours; an unknown format falls back to the hex code |
| ErrorTypeUtils.ColorTableEntry | src/utils/ErrorTypeUtils.jsx:43-74 | a known type and format give that entry of the colour table |
| ErrorTypeUtils.ExtractErrorType | src/utils/ErrorTypeUtils.jsx:82-95 | the extracted type is never empty |
| ErrorTypeUtils.ExtractErrorTypeSources | src/utils/ErrorTypeUtils.jsx:82-95 | error logs use `Fehlermeldung`, pattern matches `Muster`; other sources use a truthy `Fehlermeldung` and otherwise fall back to `Muster`; the result is already normalised |
| AdvancedMetrics.ErrorRate | src/utils/AdvancedMetrics.jsx:77-96 | 0 without statistics or archived files, otherwise the rate times the archived count is the total number of patterns; never negative |
| AdvancedMetrics.ErrorRateCountsRecords | src/utils/AdvancedMetrics.jsx:77-96 | with an analysis of the pattern records, rate × archived files = number of pattern records |
| AdvancedMetrics.ThroughputOf | src/utils/AdvancedMetrics.jsx:104-131 | zero without statistics or inputs; total = positive archived difference; hourly = total / elapsed hours (or the total under one hour); daily = 24 × hourly, weekly = 168 × hourly |
| AdvancedMetrics.ErrorTrend | src/utils/AdvancedMetrics.jsx:138-179 | fewer than two errors are stable; the trend is 0 for an even count and 1/floor(n/2) for an odd one; the description matches the trend's band |
| AdvancedMetrics.ErrorTrendDescriptions | src/utils/AdvancedMetrics.jsx:164-173 | the trend is never falling; strongly rising iff 3 errors; rising iff odd between 5 and 19; stable otherwise |
| AdvancedMetrics.Deduction | src/utils/AdvancedMetrics.jsx:26-44 | each deduction lies between 0 and its cap, is 0 for non-positive input and the input itself below the cap |
| AdvancedMetrics.HealthScore | src/utils/AdvancedMetrics.jsx:24-62 | the score lies in [0, 100]; perfect inputs give 100, worst inputs 0 |
| AdvancedMetrics.HealthScoreMonotone | src/utils/AdvancedMetrics.jsx:24-44 | a higher error rate, lower throughput or higher trend never raises the score |
| AdvancedMetrics.CalculateSystemHealth | src/utils/AdvancedMetrics.jsx:14-69 | the health record combines error rate, throughput, trend, the score from them, its status band and the input difference |
| AdvancedMetrics.Histogram | src/utils/AdvancedMetrics.jsx:186-202 | each bucket counts the rows mapped to it |
| AdvancedMetrics.AnalyzeErrorsByHour | src/utils/AdvancedMetrics.jsx:186-202 | 24 buckets, bucket h counts the errors at local hour h |
| AdvancedMetrics.AnalyzeErrorsByDay | src/utils/AdvancedMetrics.jsx:209-225 | 7 buckets, bucket d counts the errors on weekday d |
| AdvancedMetrics.ErrorsByHourTotal | src/utils/AdvancedMetrics.jsx:186-202 | the hour buckets add up to the number of validly dated errors (all of them when all are dated) |
| AdvancedMetrics.ErrorsByDayTotal | src/utils/AdvancedMetrics.jsx:209-225 | the weekday buckets add up to the number of validly dated errors |
| AdvancedMetrics.TallyTotal | src/utils/AdvancedMetrics.jsx:186-225 | when each dated row falls in one of n buckets, the buckets add up to the dated rows |
| AdvancedMetrics.CountByGroups | src/utils/AdvancedMetrics.jsx:259-263 | counting types one by one gives the sizes of the type groups |
| AdvancedMetrics.CountBySpec | src/utils/AdvancedMetrics.jsx:259-263 | each type's count is the number of its records; a type is counted iff present; types are distinct; counts add up to the records |
| AdvancedMetrics.RankTypes | src/utils/AdvancedMetrics.jsx:268-270 | one ranked type per counted type |
| AdvancedMetrics.RankTypesOrder | src/utils/AdvancedMetrics.jsx:268-270 | the ranking is a permutation of the counter, most frequent first |
| AdvancedMetrics.HeatmapRows | src/utils/AdvancedMetrics.jsx:251-253 | with no type selected, all rows; with a type selected, each row of that type as often as it occurs and no other row |
| AdvancedMetrics.CreateErrorHeatmap | src/utils/AdvancedMetrics.jsx:237-277 | an invalid date anywhere among the selected rows gives the invalid-date result; otherwise a 7×24 grid whose cell (d, h) counts the rows at that weekday and hour, the type counts, and the types ranked |
| AdvancedMetrics.FillHeatmap | src/utils/AdvancedMetrics.jsx:256-270 | the loop fills the grid and the counter as specified, or stops at the first invalid date |
| AdvancedMetrics.HeatmapTotals | src/utils/AdvancedMetrics.jsx:256-265 | the 168 cells and the type counts each add up to the number of selected rows |
| AdvancedMetrics.HeatmapSelects | src/utils/AdvancedMetrics.jsx:251-253 | with a type selected, every counted row has that type and its count is all of them |
| StatusIndicator.Coerce | src/components/widgets/StatusIndicator.jsx:22-23 | numbers stay; numeric strings become their number; other strings stay strings |
| StatusIndicator.CoerceDigits | src/components/widgets/StatusIndicator.jsx:22-23 | a digit string becomes its decimal value |
| StatusIndicator.CoerceExamples | src/components/widgets/StatusIndicator.jsx:22-23 | a blank string is the number 0 and "Steigend" stays a string |
| StatusIndicator.FindEqual | src/components/widgets/StatusIndicator.jsx:34 | a found threshold has the string value; None iff no threshold has it |
| StatusIndicator.FindEqualFirst | src/components/widgets/StatusIndicator.jsx:34 | the found threshold is the first with that value |
| StatusIndicator.NoThresholdsIsOk | src/components/widgets/StatusIndicator.jsx:28-30 | no thresholds give the "ok"/"OK" status |
| StatusIndicator.StringValueMatches | src/components/widgets/StatusIndicator.jsx:33-38 | a string value takes the first threshold with that value, or "ok" when none matches |
| StatusIndicator.NumberUsesPick | src/components/widgets/StatusIndicator.jsx:40-70 | a number takes the picked threshold's status and label |
| StatusIndicator.LevelOfDigits | src/components/widgets/StatusIndicator.jsx:41-46 | a threshold written as a digit string is numeric and compares as its decimal value |
| StatusIndicator.InversePick | src/components/widgets/StatusIndicator.jsx:41-56 | inverse mode, all thresholds numeric: the lowest threshold above the value, or the highest threshold when the value reaches them all |
| StatusIndicator.StandardPickAsWritten | src/components/widgets/StatusIndicator.jsx:58-69 | standard mode as written, all thresholds numeric: always the lowest threshold, whatever the value |
| StatusIndicator.StandardStatusCounterexample | src/components/widgets/StatusIndicator.jsx:58-69 | with thresholds 0/50/80, the value 90 is shown as "ok"/"Gut" |
| StatusIndicator.StandardPickIntended | src/components/widgets/StatusIndicator.jsx:58-69 | corrected standard mode, all thresholds numeric: the highest threshold the value reaches, or the lowest when it reaches none |
| StatusIndicator.StandardStatusIntendedExample | src/components/widgets/StatusIndicator.jsx:58-69 | corrected: the value 90 with thresholds 0/50/80 is "error"/"Kritisch" |
| PatternMatchWidget.Slices | src/components/widgets/PatternMatchWidget.jsx:34-38 | one slice per pattern, with its type and count |
| PatternMatchWidget.ChartDataEmpty | src/components/widgets/PatternMatchWidget.jsx:26-28 | missing or empty counts give no slices |
| PatternMatchWidget.ChartDataShape | src/components/widgets/PatternMatchWidget.jsx:25-51 | the first min(n, 7) slices mirror the counts; an "Andere" slice holding the rest's sum follows iff n > 7; the slices sum to the total |
| TimelineSlider.Trunc | src/components/layout/TimelineSlider.jsx:54-63 | truncation toward zero: within 1 of x, never further from 0 |
| TimelineSlider.Clamp | src/components/layout/TimelineSlider.jsx:91 | the result lies within the bounds and equals x inside them |
| TimelineSlider.DateToPosition | src/components/layout/TimelineSlider.jsx:43-52 | a position on the track; 0 without a domain or date; the date's fraction of the domain times the width inside it |
| TimelineSlider.PositionToDate | src/components/layout/TimelineSlider.jsx:54-63 | the current time without a width or domain, otherwise a date inside the domain |
| TimelineSlider.PositionRoundTrip | src/components/layout/TimelineSlider.jsx:43-63 | mapping a date in the domain to a position and back gives the date |
| TimelineSlider.StepFor | src/components/layout/TimelineSlider.jsx:596-604 | hourly up to a day, 6-hourly up to a week, daily up to 30 days, weekly beyond |
| TimelineSlider.SkipFor | src/components/layout/TimelineSlider.jsx:607-611 | every 1st, 2nd or 3rd marker is shown |
| TimelineSlider.MarkersOrdered | src/components/layout/TimelineSlider.jsx:618-640 | markers lie within the domain at their date's position, in strictly increasing time |
| TimelineSlider.MarkersExactly | src/components/layout/TimelineSlider.jsx:618-640 | a time is a marker iff it is a step multiple from the start within the domain and its index is shown |
| TimelineSlider.MarkersEnds | src/components/layout/TimelineSlider.jsx:585-640 | the first marker is the domain start; the end is a marker iff the domain length is a step multiple |
| TimelineSlider.InterpolateOnTrack | src/components/layout/TimelineSlider.jsx:196-201 | the release interpolation agrees with `positionToDate` on the track |
| TimelineSlider.BandMove | src/components/layout/TimelineSlider.jsx:162-174 | a band drag keeps the band's width and keeps a band that fits inside the track |
| TimelineSlider.Slider.constructor | src/components/layout/TimelineSlider.jsx:15-24 | width 0, handles at 0 and 100, idle, no guard |
| TimelineSlider.Slider.Resize | src/components/layout/TimelineSlider.jsx:27-37 | only the width changes |
| TimelineSlider.Slider.Sync | src/components/layout/TimelineSlider.jsx:83-105 | idle, unguarded and measured: each present date moves its handle to its clamped track position; otherwise nothing moves |
| TimelineSlider.Slider.Press | src/components/layout/TimelineSlider.jsx:138-152 | a press starts the drag, sets the guard and records the press point, the handle positions and the domain |
| TimelineSlider.Slider.Move | src/components/layout/TimelineSlider.jsx:383-399 | a handle moves by the mouse delta, clamped to keep 8 px from the other; the band keeps its width and stays on the track |
| TimelineSlider.Slider.Release | src/components/layout/TimelineSlider.jsx:182-221 | as written: emits the dates of the handle positions at press time, schedules the guard clear after 100 ms (mouse) or 200 ms (touch), and ends the drag |
| TimelineSlider.Slider.ReleaseIntended | src/components/layout/TimelineSlider.jsx:182-221 | corrected: emits the dates of the current handle positions |
| TimelineSlider.Slider.Settle | src/components/layout/TimelineSlider.jsx:215-217 | a pending guard-clear timer fires and clears the guard |
| TimelineSlider.Slider.GenerateTimeMarkers | src/components/layout/TimelineSlider.jsx:585-643 | the loop produces exactly the specified markers |
| TimelineSlider.CollectMarkers | src/components/layout/TimelineSlider.jsx:617-640 | the tick loop emits, in order, one marker per shown tick from the start instant up to the end instant, each at its instant's track position |
| TimelineSlider.StaleReleaseExample | src/components/layout/TimelineSlider.jsx:182-221 | the start handle dragged from 0 to 50 px on a 100 px track over [0, 100 000] ms shows 50 px but emits the old range [0, 100 000] |
| TimelineSlider.IntendedReleaseExample | src/components/layout/TimelineSlider.jsx:182-221 | corrected: the same drag emits [50 000, 100 000] |
| TimelineSlider.IntendedReleaseRoundTrip | src/components/layout/TimelineSlider.jsx:196-201 | with the intended release, handles placed at the positions of two dates of the domain emit exactly those dates |
| TimelinePanel.JsRem | src/components/layout/FloatingTimelinePanel.jsx:24-25 | JavaScript remainder: the Euclidean one for non-negatives, in (-b, 0] for negatives |
| TimelinePanel.DurationPartsDecompose | src/components/layout/FloatingTimelinePanel.jsx:20-25 | a non-negative length is days, hours < 24, minutes < 60 and a sub-minute rest |
| TimelinePanel.TimeRangeDuration | src/components/layout/FloatingTimelinePanel.jsx:15-34 | the appending code gives the duration text |
| TimelinePanel.DurationTextCases | src/components/layout/FloatingTimelinePanel.jsx:15-34 | empty for a missing bound or a negative span, non-empty otherwise, "0 Min." for an empty span |
| TimelinePanel.DurationTextExample | src/components/layout/FloatingTimelinePanel.jsx:29-31 | 1 day 2 h 3 min 4 s reads "1 Tag 2 Std. 3 Min." |
| TimelinePanel.Shift | src/components/layout/FloatingTimelinePanel.jsx:77-123 | shifting keeps the span; forward moves to [end, 2·end − start] unless that passes the maximum, then it ends at the maximum; backward mirrors this at the minimum |
| TimelinePanel.ShiftRoundTrip | src/components/layout/FloatingTimelinePanel.jsx:77-123 | an unclamped forward shift followed by a backward shift returns the window |
| TimelinePanel.ShiftBackRoundTrip | src/components/layout/FloatingTimelinePanel.jsx:77-123 | an unclamped backward shift followed by a forward shift returns the window |
| TimelinePanel.PresetOffset | src/components/layout/FloatingTimelinePanel.jsx:347-407 | exactly the ten preset names have an offset |
| TimelinePanel.QuickRange | src/components/layout/FloatingTimelinePanel.jsx:339-410 | a range iff the maximum date is known and the preset exists; it ends at the maximum and spans the offset |
| TimelinePanel.PresetLengths | src/components/layout/FloatingTimelinePanel.jsx:347-405 | each preset's length in milliseconds |
| TimelinePanel.QuickRangeNotClamped | src/components/layout/FloatingTimelinePanel.jsx:347-405 | a preset may start before the minimum date (no clamp) |
| TimelinePanel.Panel.constructor | src/components/layout/FloatingTimelinePanel.jsx:47-57 | the local filter starts as the given range with type "custom" |
| TimelinePanel.Panel.ShiftTimeRange | src/components/layout/FloatingTimelinePanel.jsx:65-149 | no range: nothing; otherwise emits the shifted window and records it as "shifted" |
| TimelinePanel.Panel.FilterTypeChange | src/components/layout/FloatingTimelinePanel.jsx:339-425 | emits the preset's quick range and records it with the preset type; without a maximum date or for an unknown preset nothing changes |
| TimelinePanel.Panel.SliderChange | src/components/layout/FloatingTimelinePanel.jsx:680-693 | passes the slider's range on and records it as "custom" |
| TimelinePanel.ActiveTypeExample | src/components/layout/FloatingTimelinePanel.jsx:60-62 | after a shift, a preset and a slider move, the matching type is active |
| App.Window | src/App.jsx:92-95 | the kept rows are a subsequence; each row dated within the window is kept as often as it occurs, and no other row |
| App.FilterDataByDateRange | src/App.jsx:89-96 | unchanged when a bound is missing or the data is empty; always a subsequence; with both bounds, each row dated inside as often as it occurs and no other row |
| App.ValidDates | src/App.jsx:100-105 | exactly the valid dates of the rows |
| App.MinOf | src/App.jsx:110 | a member that is at most every member |
| App.MaxOf | src/App.jsx:111 | a member that is at least every member |
| App.DetermineMinMaxDates | src/App.jsx:99-113 | None iff no row has a valid date; otherwise both bounds are dates of rows, and every valid date lies between them |
| App.Dashboard.constructor | src/App.jsx:74-83 | no range, no bounds, not yet loaded |
| App.Dashboard.FilterChange | src/App.jsx:116-118 | the range becomes the given one |
| App.Dashboard.LoadAllData | src/App.jsx:124-177 | as written: bounds from the data; on the first load with a maximum, the default last-day window replaces whatever range is set, since the loader sees the first-render range |
| App.Dashboard.LoadAllDataIntended | src/App.jsx:150-161 | corrected: the default last-day window is installed only when no range is set |
| App.DefaultInstalledOnce | src/App.jsx:150-161 | the default is installed on the first load only, and a later choice survives reloads |
| App.EarlyChoiceOverwritten | src/App.jsx:150-161 | a range chosen before the first load is replaced by the default |
| App.EarlyChoiceKept | src/App.jsx:150-161 | corrected: the early choice is kept |
| WidgetGrid.LayoutOf | src/components/layout/DraggableWidgetGrid.jsx:181-182 | a breakpoint's entry exists iff the layouts list it |
| WidgetGrid.FindItem | src/components/layout/DraggableWidgetGrid.jsx:196 | a found item has the key; None iff no item has it |
| WidgetGrid.WidgetIdOf | src/components/layout/DraggableWidgetGrid.jsx:187 | the ".$" prefix is removed when present |
| WidgetGrid.CollapseItem | src/components/layout/DraggableWidgetGrid.jsx:185-203 | only the height of the matching item changes: 2 when collapsed, its default height when expanded and a default exists |
| WidgetGrid.CollapseItems | src/components/layout/DraggableWidgetGrid.jsx:185-203 | each item is updated in place, in order |
| WidgetGrid.CollapseLayouts | src/components/layout/DraggableWidgetGrid.jsx:178-204 | the result holds only array layouts and no more breakpoints |
| WidgetGrid.CollapseLayoutsLookup | src/components/layout/DraggableWidgetGrid.jsx:181-204 | each array breakpoint maps to its updated items; non-arrays are dropped |
| WidgetGrid.CollapseThenExpand | src/components/layout/DraggableWidgetGrid.jsx:190-200 | collapsing then expanding a widget restores layouts whose heights are the defaults |
| WidgetGrid.ExpandRestoresDefaults | src/components/layout/DraggableWidgetGrid.jsx:30-99 | on the default layouts, collapse then expand gives the default layouts back |
| WidgetGrid.LoadSavedLayouts | src/components/layout/DraggableWidgetGrid.jsx:97-112 | a stored object with an `lg` array is used, anything else gives the defaults |
| WidgetGrid.LoadedHasLg | src/components/layout/DraggableWidgetGrid.jsx:97-112 | the loaded layouts always have an `lg` array |
| WidgetGrid.Grid.constructor | src/components/layout/DraggableWidgetGrid.jsx:115-118 | layouts are the loaded ones, nothing collapsed |
| WidgetGrid.Grid.LayoutChange | src/components/layout/DraggableWidgetGrid.jsx:121-136 | the layouts become the reported ones |
| WidgetGrid.Grid.ResetLayout | src/components/layout/DraggableWidgetGrid.jsx:236-247 | the layouts become the defaults |
| WidgetGrid.Grid.HandleWidgetCollapse | src/components/layout/DraggableWidgetGrid.jsx:165-215 | records the widget's state and replaces the layouts by their collapsed/expanded form |
| WidgetGrid.RebuildLayouts | src/components/layout/DraggableWidgetGrid.jsx:178-204 | the per-breakpoint loop builds the specified layouts |

## Left out

- Fetching the CSV files, `localStorage`, `console` output, timers other than the guard clear, and the five-minute reload interval: these are I/O. Their results are parameters (`Stored`, the parsed rows).
- Parsing `Zeitpunkt` into a date, and the local hour and weekday: done by the host. Each row carries them as an optional `LocalTime`.
- The calendar step `setDate(getDate() - 1)`, and calendar presets: modelled as fixed multiples of 86 400 000 ms. Daylight-saving days are not modelled.
- Floating point: all arithmetic is exact. Rounding in `toFixed`, NaN, and positions of huge magnitude are not modelled.
- Date labels, `toLocaleString`, and the date and time strings in the panel's local filter: the filter keeps the instants instead.
- DataProcessor.StatusStatisticsOf: requires every status row to have a valid date. A NaN comparator gives an implementation-defined order.
- StatusIndicator.Coerce: covers decimal strings, with sign, point and blank. `Number`'s hexadecimal, exponent and `Infinity` forms are not modelled.
- ErrorTypeUtils.GetErrorTypeColor: does not model lookups of inherited object properties such as "constructor".
- DataProcessor.GroupErrorsByType: a `Fehlermeldung` that names an inherited object property ("constructor", "toString", "__proto__") finds a truthy non-array value, so `push` throws; records are plain association lists and model that key as an ordinary new group.
- DataProcessor.AnalyzePatternMatches: the same gap for a `Muster` naming an inherited object property when patterns are grouped by type.
- AdvancedMetrics.CreateErrorHeatmap: an error type naming an inherited object property starts its count from that property (for "constructor" a function, so `+ 1` concatenates text); the model starts every count at 0.
- StatusIndicator.Level: a threshold whose value is `undefined` or a string that is not a number is `NaN` in JavaScript; every comparison with it is false and the sort comparator returns `NaN`, which leaves the sorted order implementation-defined. The model ranks such a threshold as 0, so `InversePick`, `StandardPickAsWritten` and `StandardPickIntended` are stated only for tables where every threshold is numeric (`NumericTable`), and `undefined` values are not represented.
- DataLoader.BuildEntry / DataLoader.EntryKeys: a header naming an inherited property setter (`__proto__`) yields no field in JavaScript, because the assignment goes to the prototype setter, which ignores a string; the model stores it as an ordinary field.
- Object key order for integer-like keys, which JavaScript enumerates first: records keep insertion order only.
- The stale `patternAnalysis` state passed to the health computation in `src/App.jsx`: the model passes the analysis explicitly.
- A press during an active gesture: the source does not check `dragging`, and the first press's document listeners stay attached, so both gestures' move and release handlers keep firing; the model keeps only the later gesture's session. Touch events without `touches[0]` are ignored.
- The slider's hover tooltip, the panel's window dragging, minimising, and the free date inputs (`handleDateChange`): these are presentation.
- FilterBar, FileCountWidget and the chart widgets beyond the pattern pie: presentation over the modelled data.
- WidgetGrid: items are assumed to have string ids.

## Findings

| source | as written | input that shows it | evidently intended | confidence | as-written member | corrected member |
|---|---|---|---|---|---|---|
| src/components/widgets/StatusIndicator.jsx:58-69 | thresholds are sorted ascending and the first one with value ≥ threshold is returned, so the lowest threshold always wins | thresholds 0 "Gut", 50 "Warnung", 80 "Kritisch", value 90 → "Gut" | the highest threshold the value reaches ("Kritisch") | high, not executed | StatusIndicator.StandardStatusCounterexample | StatusIndicator.StandardPickIntended |
| src/components/layout/TimelineSlider.jsx:439-444 | the start handle's release handler (and likewise the band, end-handle and touch release handlers at lines 196-201, 332-333 and 535-536) reads the handle positions captured when the drag began, so it emits the range from before the drag | on a 100 px track over 0–100 000 ms, the start handle dragged from 0 to 50 px → emits [0, 100 000] while the handle shows 50 px | emit the dates of the handles' final positions ([50 000, 100 000]) | high, not executed | TimelineSlider.StaleReleaseExample | TimelineSlider.IntendedReleaseExample |
| src/App.jsx:158-160 | the loader closure checks the `dateRange` of the first render, which never has bounds | a range chosen before the first load completes → replaced by the last-day default | keep a range the user already chose | medium, not executed | App.EarlyChoiceOverwritten | App.EarlyChoiceKept |
