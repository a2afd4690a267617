# Terminal progress display: a verified model

This project models the pure logic of the multi-bar terminal progress
renderer of the netease-cloud-music command-line tool
(`internal/ncmctl/progress.go`) in Dafny and proves its properties.

- **Layout** (`layout.dfy`): `displayWidth` counts every code point above
  127 as two terminal cells and every other code point as one.
  `truncateByWidth` cuts a string to a width budget and appends `..`.
  Strings are sequences of Unicode code points.
- **GoInt** (`goint.dfy`): Go's int64 range and its two's-complement
  wrap-around. Go's int is taken to be 64 bits wide.
- **Sequences** (`sequences.dfy`): one multiset fact shared by the counter
  and the sorting modules.
- **Counter** (`counter.dfy`): the progress counter `ProgressTracker`. Its
  `Add` is an int64 addition that wraps on overflow. The counting writer
  `ProgressWriter.Write` advances the counter only when the downstream
  writer reports no error.
- **Render** (`render.dfy`): one display line, as `ProgressTracker.String`
  builds it.
  - The name column is 35 cells, truncated and then padded with spaces.
  - The bar is `max(termWidth - 44, 10)` code points long, with the
    subtraction wrapping as Go's int does. A wrapped width is nearly the
    largest int, and for it the source's `String` panics.
  - The fill position is clamped into the bar.
  - The mouth cell is `>` or `<` by the parity of the fill position, or
    solid once the total is reached.
- **Sorting** (`sorting.dfy`): sorting a snapshot by the trackers' `Order`.
- **Registry** (`registry.dfy`): `ProgressManager` as a sequential state
  machine over tracker identities and the running flag.
  - The operations are `Start`, `Stop`, `Add`, `Remove`, `Finish` and `Log`.
    What `Finish` and `Log` print or queue is returned as an `Emission`.
  - `printTrackers` is modelled as a function from a snapshot to the rows
    it paints, the stale rows it blanks and the row count it returns.
- **Scenario** (`scenario.dfy`): two downloads, registered out of order,
  advanced, repainted and one of them finished; and a downstream writer
  that refuses bytes it accepted before.

Trackers are identified by ids because the source compares tracker pointers.
A tracker's current value is looked up through a function `Id -> Tracker`.
The terminal width is a parameter, where the source asks the terminal for it.

Points where the code does something unexpected, and the model follows the
code:

- `printTrackers` returns 0 straight away for an empty snapshot
  (progress.go:240-242). It then blanks none of the rows painted before,
  although the comment at progress.go:260 says leftover rows are cleared.
  The render loop erases the painted region only in its stop and log
  branches, and only while `lastLines > 0` (progress.go:282, 288). A tick
  that paints the empty snapshot sets `lastLines` to 0 (progress.go:297-301),
  so after such a tick nothing erases the stale rows.
- `truncateByWidth`'s final `return s` (progress.go:48) is reached in two
  cases. The first is the empty string with a negative budget: the loop has
  no code point to stop at, so the result is the empty string and not `..`.
  The second is a budget of the smallest int or one more: `maxWidth - 2`
  (progress.go:35) then wraps around to the largest ints, and the loop never
  cuts. For every other input that does not fit, the loop returns from
  inside. `Layout.Truncate` and `Layout.TruncateByWidth` model all three
  cases. No caller passes such a budget: progress.go:105 passes 35.
- The sort in `printTrackers` is unstable (`sort.Slice`). The model sorts by
  insertion. `Sorting.SortedKeysAgree` proves that every sorted rearrangement
  lists the same `Order` values, so only the placement among equal orders
  differs from the source.

## Model

| member | source | states |
|---|---|---|
| Layout.DisplayWidth | internal/ncmctl/progress.go:17-27 | a string's display width lies between its number of code points and twice that |
| Layout.DisplayWidthCounts | internal/ncmctl/progress.go:17-27 | the display width equals the number of code points plus the number of code points above 127 |
| Layout.DisplayWidthAscii | internal/ncmctl/progress.go:17-27 | an all-ASCII string of N code points is N cells wide |
| Layout.DisplayWidthWide | internal/ncmctl/progress.go:17-27 | a string of N code points, all above 127, is 2N cells wide |
| Layout.DisplayWidthAppend | internal/ncmctl/progress.go:17-27 | the width of a concatenation is the sum of the widths |
| Layout.MeasureWidth | internal/ncmctl/progress.go:17-27 | the single left-to-right pass returns the display width, which equals the code points plus the wide code points |
| Layout.FitLength | internal/ncmctl/progress.go:35-47 | the cut point is a prefix length whose prefix fits the target width (or 0), and the prefix one code point longer does not fit |
| Layout.FitLengthUnique | internal/ncmctl/progress.go:35-47 | only one prefix length has both properties of the cut point |
| Layout.TargetWidth | internal/ncmctl/progress.go:35 | the target is `maxWidth - 2` wrapped into int64: exact from the smallest int plus 2 upwards, and at least the largest int minus 1 below that |
| Layout.TruncateByWidth | internal/ncmctl/progress.go:30-48 | the scanning loop, with the wrapped target, returns exactly the declarative truncation: the string itself if it fits or never passes the target, otherwise the longest prefix fitting the target plus `..` |
| Layout.Truncate | internal/ncmctl/progress.go:30-48 | the result is either the string itself or a proper prefix of it followed by `..`; Layout.TruncateLongestPrefix says which prefix, Layout.TruncateWrappedBudget covers the wrapped target, and Layout.TruncateByWidth is proved equal to it |
| Layout.TruncateKeepsFitting | internal/ncmctl/progress.go:31-33 | a string no wider than the budget is returned unchanged |
| Layout.TruncateLongestPrefix | internal/ncmctl/progress.go:35-47 | a non-empty string wider than the budget and than the (wrapped) target becomes a proper prefix plus `..`; that prefix fits the target and no longer prefix does |
| Layout.TruncateWrappedBudget | internal/ncmctl/progress.go:35-48 | for a budget of the smallest int or one more the target wraps to the largest ints, so any string no wider than that is returned whole by the final `return s` |
| Layout.TruncateWithinWidth | internal/ncmctl/progress.go:30-48 | with a budget of at least 2, the result is never wider than the budget |
| Layout.TruncateNarrowOverflows | internal/ncmctl/progress.go:35-45 | with a budget from the smallest int plus 2 up to 1, an overflowing non-empty string becomes `..`, which is wider than the budget |
| GoInt.Wrap64 | internal/ncmctl/progress.go:60 | the wrapped value is congruent to the exact sum modulo 2^64, and equal to it when it fits in int64 |
| Counter.Add | internal/ncmctl/progress.go:59-61 | `Add(n)` grows the counter by n, exactly when no overflow occurs and modulo 2^64 in general; total, name and order are unchanged |
| Counter.AddAllSums | internal/ncmctl/progress.go:59-61 | a run of increments advances the counter by their sum, modulo 2^64 |
| Counter.AddAllOrderFree | internal/ncmctl/progress.go:59-61 | the final counter does not depend on the order in which concurrent increments land |
| Counter.Write | internal/ncmctl/progress.go:312-319 | the downstream reply is returned unchanged; a nil error advances the counter by exactly the bytes written, and an error leaves the tracker untouched even if bytes were written |
| Counter.WriteAllCounts | internal/ncmctl/progress.go:312-319 | after a run of writes the counter has grown by the bytes of the successful writes only, and earlier progress is kept |
| Render.BarWidth | internal/ncmctl/progress.go:68-75 | the bar width is the terminal width minus 44, but never less than 10; the subtraction wraps like Go's int, so a width within 44 of the smallest int gives a bar width of nearly the largest int, for which String panics |
| Render.FillPosition | internal/ncmctl/progress.go:82-89 | the fill position always lies inside the bar, in `[0, width-1]` |
| Render.FillPositionIsFloor | internal/ncmctl/progress.go:77-89 | below the total the fill position is the floor of current/total of the bar width |
| Render.FillPositionSaturates | internal/ncmctl/progress.go:77-89 | at or above a positive total the bar is filled up to its last cell |
| Render.FillPositionEmpty | internal/ncmctl/progress.go:77-89 | a total of 0 or less, or no progress, fills nothing |
| Render.FillPositionMonotone | internal/ncmctl/progress.go:77-89 | more progress never moves the fill position back |
| Render.BarGeometry | internal/ncmctl/progress.go:91-102 | the bar has exactly `width` code points: `pos` solid ones, the mouth, then `width-pos-1` dots |
| Render.MouthShape | internal/ncmctl/progress.go:93-100 | the mouth is solid if and only if current >= total, otherwise `>` on an even and `<` on an odd fill position |
| Render.CompletedBarIsSolid | internal/ncmctl/progress.go:77-102 | a counter that has reached a positive total shows an all-solid bar |
| Render.UnknownTotalBar | internal/ncmctl/progress.go:77-102 | a counter with total 0 shows one solid cell followed by dots |
| Render.NameColumnWidth | internal/ncmctl/progress.go:104-112 | the truncated name fits 35 cells, so the padding is never negative; name plus padding is exactly 35 cells and starts with the truncated name |
| Render.Mouth | internal/ncmctl/progress.go:93-100 | the mouth cell is solid, `>` or `<`, and solid exactly when the counter has reached its total; Render.MouthShape fixes the choice between `>` and `<` |
| Render.ProgressBar | internal/ncmctl/progress.go:91-102 | the bar has exactly as many code points as BarWidth gives; Render.BarGeometry states it code point by code point |
| Render.NameColumn | internal/ncmctl/progress.go:104-112 | no contract of its own: Render.NameColumnWidth states that it is exactly 35 cells wide and starts with the truncated name |
| Render.Line | internal/ncmctl/progress.go:114 | the line is as long as the name column and the bar together, plus four framing code points; Render.LineLayout places each part |
| Render.LineLayout | internal/ncmctl/progress.go:114 | the line is the name column, a space, `[`, the bar's `width` code points, `]` and a space, at fixed code-point offsets |
| Sorting.Insert | internal/ncmctl/progress.go:245-247 | inserting into a sorted sequence keeps it sorted and adds exactly the one element; the smaller of the new key and the old first key comes first |
| Sorting.Sort | internal/ncmctl/progress.go:245-247 | the result is a permutation of the input sorted ascending by key |
| Sorting.SortedKeysAgree | internal/ncmctl/progress.go:245-247 | any two sorted rearrangements of the same elements list the same keys in the same order |
| Registry.NewManager | internal/ncmctl/progress.go:126-130 | a new manager has no trackers and no running loop |
| Registry.Start | internal/ncmctl/progress.go:144-154 | after Start the loop runs and the trackers are unchanged |
| Registry.Stop | internal/ncmctl/progress.go:156-164 | after Stop the loop is stopped and the trackers are unchanged |
| Registry.StartStopIdempotent | internal/ncmctl/progress.go:144-164 | Start and Stop are idempotent, and each does nothing in its own target state |
| Registry.FirstIndex | internal/ncmctl/progress.go:178-184 | the search stops at the first occurrence of the tracker, or at the end if it is absent |
| Registry.RemoveFirst | internal/ncmctl/progress.go:219-224 | only the first occurrence is deleted and the rest keep their order; an absent tracker leaves the list unchanged; exactly one copy leaves the multiset |
| Registry.Add | internal/ncmctl/progress.go:166-171 | the tracker is appended with no uniqueness check, and the loop runs afterwards |
| Registry.Remove | internal/ncmctl/progress.go:216-231 | the first registration is removed; the loop runs afterwards if and only if it ran and trackers remain |
| Registry.Log | internal/ncmctl/progress.go:132-142 | a message is queued if and only if the loop runs, and printed directly otherwise |
| Registry.Finish | internal/ncmctl/progress.go:174-214 | the manager changes exactly as under Remove; the finished tracker's own line is emitted if and only if it was registered, queued while the loop runs and printed otherwise |
| Registry.FinishLineIsOwnRow | internal/ncmctl/progress.go:178-204 | the line Finish emits is the row a repaint before the call paints at that same tracker's place in the display order |
| Registry.SettledPreserved | internal/ncmctl/progress.go:166-231 | Add, Remove, Finish and Stop keep "the loop runs only while trackers remain" |
| Registry.FinishForgets | internal/ncmctl/progress.go:174-214 | a tracker registered once is absent from every snapshot after Finish |
| Registry.LastTrackerStops | internal/ncmctl/progress.go:207-231 | removing or finishing the last tracker stops the loop without a further call |
| Registry.DisplayOrder | internal/ncmctl/progress.go:245-247 | the snapshot is rearranged, with every registration kept, into ascending order of the trackers' `Order` |
| Registry.PrintTrackers | internal/ncmctl/progress.go:234-271 | the returned count equals the snapshot length, with one row per registration; an empty snapshot blanks nothing; otherwise `lastLines - count` rows are blanked when fewer rows are painted than before |
| Registry.PaintOrder | internal/ncmctl/progress.go:234-259 | the rows are the lines of a permutation of the snapshot sorted ascending by order; any other sorted permutation has the same order sequence |
| Scenario.TwoDownloadsRepaint | internal/ncmctl/progress.go:234-259 | counters A (5 of 10, order 0) and B (20 of 20, order 1), registered B first, paint as A above B; A is filled to 18 of 36 cells and B is all solid |
| Scenario.TwoDownloadsFinish | internal/ncmctl/progress.go:174-214 | finishing B queues B's final line and leaves A registered with the loop running |
| Scenario.TwoDownloadsLogRepaint | internal/ncmctl/progress.go:286-294 | when the loop takes B's queued line it repaints at once with `lastLines` 0: A alone, nothing blanked |
| Scenario.TwoDownloadsTickBeforeLog | internal/ncmctl/progress.go:295-301 | a tick handled between B's removal and the delivery of its line repaints over the last two rows: A alone, and B's old row blanked |
| Scenario.WriterFillsUp | internal/ncmctl/progress.go:312-319 | the same three bytes accepted by the downstream writer once and refused the next time advance the counter by three |

## Left out

- Render.FillPosition: uses exact integer arithmetic. The source computes
  `int(float64(current)/float64(Total)*100/100*float64(width))` in floating
  point, which can round differently near cell boundaries (see the
  Render.FillPositionIsFloor line). When that
  product is beyond the int64 range, Go's conversion to `int`
  (progress.go:83) has an implementation-dependent result. On amd64 it is
  the minimum int64, which progress.go:87-89 clamp to 0. For example, with
  total 1, current 2^62 and width 36 the source shows no solid cells, a
  solid mouth and then dots. The model fills the bar instead.
- Render.FillPositionIsFloor: promises the exact floor, which the source's
  double-precision arithmetic can miss by one. For example, with current 29,
  total 100 and width 100 (a terminal 144 columns wide), 29.0 / 100 * 100 is
  28.999999999999996 in double precision, so the source fills 28 cells
  where the model fills 29.
- Render.FillPositionSaturates: promises a full bar for a counter far beyond
  its total, where the source's out-of-range float conversion can show an
  empty one (see the Render.FillPosition line).
- Render.FillPositionMonotone: far beyond the total, the source's
  out-of-range float conversion can drop the fill position back to 0, so
  more progress can show less (see the Render.FillPosition line).
- Render.CompletedBarIsSolid: promises an all-solid bar for every counter at
  or beyond a positive total, where the source's out-of-range float
  conversion can show no solid cells (see the Render.FillPosition line).
- Render.ProgressBar: the source panics for bar widths whose
  `strings.Repeat` count overflows Go's int (progress.go:91 and 102). Each
  repeat panics when the count times the glyph's byte length (3 for the
  solid cell, 2 for the dot) passes the largest int. Every wrapped width
  from Render.BarWidth is such a width. The model returns the bar instead,
  and Render.Line, Render.BarGeometry, Render.UnknownTotalBar,
  Render.CompletedBarIsSolid and Render.LineLayout inherit that result. No
  caller reaches these widths: the terminal width comes from `term.GetSize`
  or is 80.
- The percentage text `%3.0f%%` at the end of each line is floating-point
  formatting. `Render.Line` stops after `"] "`.
- The `run` goroutine, the 100 ms ticker, the `stop` and `logs` channels
  (with capacity 100 and blocking sends), the mutex and the atomic loads and
  stores are left out. They exist for concurrency, and the model is
  sequential. In particular, a line queued by the Finish that removes the
  last tracker can race with the closing of `stop`, and the loop may return
  without printing it. The model only records that the line was queued.
- The cursor bookkeeping of `run` (`lastLines` across events) is left out.
  `printTrackers` takes `lastLines` as a parameter.
- Terminal I/O is left out: `term.GetSize` with its fallback of 80 (the
  width is a parameter), `fmt.Printf` and `fmt.Println` (rows and emissions
  are returned instead), and the ANSI escape sequences.
- Strings are code-point sequences. UTF-8 decoding, including the
  replacement of invalid bytes, is not modelled.
- Counter.Write: the downstream `io.Writer` is given, for each call, as the
  function that answers that call. Counter.WriteAll takes one such function
  per call, so a writer whose answers change over time is covered. What the
  writer does with the bytes is not modelled.
- Go's `int` is taken to be 64 bits wide, as on the platforms the tool
  targets. Display widths and the running width in `truncateByWidth` are
  unbounded integers here. Go's would wrap only for strings of more than
  2^62 code points, which cannot be held in memory.
- Image conversion and audio-tag writing (`internal/ncmctl/download_extra.go`)
  are left out. They wrap libraries and file I/O outside this model.
- The web API request wrappers (`api/weapi/song_extra.go` and
  `api/weapi/playlist_extra.go`) are left out. They contain no local logic.
