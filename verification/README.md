# Postventa Gantt dashboard: verified model of the data pipeline

The dashboard (`gantt_postventa.py`) shows the after-sales development
requirements of a team as a Gantt timeline. It reads a published
spreadsheet, cleans it and offers two drop-downs (delivery month, status)
and a light/dark theme switch. Around the Dash, Plotly and HTTP plumbing
sits a small, deterministic pipeline. This project models that pipeline in
Dafny and proves its properties:

- **Loading** (`cargar_datos`), in `loader.dfy`, with the text and calendar
  pieces in `text.dfy` and `calendar.dfy`:
  - the whitespace in each requirement identifier (`RN`) is collapsed;
  - `Inicio` and `Fin` are read as `%m/%d/%Y`, and unreadable or impossible
    dates become missing;
  - rows with a missing date are dropped;
  - four columns are derived: `Inicio_str`, `Fin_str`, `Duracion`, `Mes`;
  - there are two fixed fallbacks: the sample rows, used when nothing
    survives, and the error rows, used when the fetch fails or a duration
    overflows.
- **Option lists** (`actualizar_datos` and the initial drop-downs), in
  `options.dfy`: `Todos`, then the sorted distinct month buckets (or
  statuses) of the freshly loaded data.
- **Filters** (`actualizar_grafico`, lines 167-170), in `filters.dfy`.
- **Timeline layout** (`actualizar_grafico`), in `chart.dfy`:
  - the empty-result placeholder;
  - sorting by start date;
  - the requirement-axis order;
  - the days remaining, and the failure when they overflow;
  - the clamped height, the title, the theme colours and the "today"
    marker label.
- **The status colour table** (`color_estado`), in `colors.dfy`.

`seqs.dfy` holds generic sequence vocabulary: selection by a predicate,
subsequences, and filter-map.

Modelling choices:

- Dates are proleptic-Gregorian `Date(year, month, day)` values at
  midnight. Day differences use Python's `toordinal` day numbering.
- A date is representable only inside the range of a nanosecond timestamp,
  1677-09-22 to 2262-04-11. Outside that range the date reader gives
  "missing", as a coerced out-of-bounds date does.
- A difference of two dates is a `Timedelta`, signed 64-bit nanoseconds,
  so it holds at most 106751 days either way. A wider duration at line 42
  makes the load fall back to the error rows. A wider days-remaining
  difference at line 190 makes the chart callback fail (`Figure.Failed`).
- `today` is a parameter.
- The fetched table is given as rows of text, or as a failed fetch.

## Model

| member | source | states |
|---|---|---|
| Text.SkipSpaces | gantt_postventa.py:25 | the leading strip drops a prefix and leaves the text starting with a non-whitespace character |
| Text.SkipSpacesDropsSpaces | gantt_postventa.py:25 | everything the leading strip drops is whitespace |
| Text.TrimEnd | gantt_postventa.py:25 | the trailing strip keeps a prefix that ends with a non-whitespace character |
| Text.TrimEndDropsSpaces | gantt_postventa.py:25 | everything the trailing strip drops is whitespace |
| Text.Collapse | gantt_postventa.py:25 | replacing whitespace runs by one space leaves an empty identifier empty and starts with a space exactly when the input starts with whitespace |
| Text.CollapseKeepsWords | gantt_postventa.py:25 | collapsing whitespace keeps exactly the words of the identifier, in order |
| Text.CollapseShape | gantt_postventa.py:25 | after collapsing, the only whitespace is the ASCII space (no `\xa0`, tab or newline) and no two spaces are adjacent |
| Text.NormalizeId | gantt_postventa.py:25 | no contract of its own (collapse whitespace runs, then strip both ends); NormalizeIdIsJoinedWords equates it with `' '.join(s.split())`, and NormalizeIdShape, NormalizeIdKeepsText and NormalizeIdIdempotent give its shape |
| Text.NormalizeIdShape | gantt_postventa.py:25 | a normalised `RN` has only single ASCII spaces, none at either end |
| Text.NormalizeIdKeepsText | gantt_postventa.py:25 | normalisation keeps every non-whitespace character, in order |
| Text.NormalizeIdFixpoints | gantt_postventa.py:25 | normalisation leaves a string unchanged iff it already has the normalised shape |
| Text.NormalizeIdIdempotent | gantt_postventa.py:25 | normalising twice equals normalising once |
| Text.NormalizeIdTwoWords | gantt_postventa.py:25 | two words separated by any whitespace run (no-break spaces included) and followed by trailing whitespace become the two words joined by one space, e.g. `RN`, two no-break spaces (U+00A0), `001` and two ASCII spaces become `RN 001` |
| Text.Words | gantt_postventa.py:25 | the reference split on whitespace yields only non-empty words free of whitespace |
| Text.NormalizeIdIsJoinedWords | gantt_postventa.py:25 | normalising an identifier equals joining its whitespace-separated words with one space each, that is `' '.join(s.split())`, for every input |
| Calendar.ParseMdy | gantt_postventa.py:27-28 | reading `%m/%d/%Y` only ever yields a real calendar date inside the timestamp range |
| Calendar.ParseFormatMdy | gantt_postventa.py:27-28 | every representable date written as zero-padded `MM/DD/YYYY` reads back as itself |
| Calendar.ImpossibleDateIsMissing | gantt_postventa.py:27-28 | `02/30/2023` is coerced to missing |
| Calendar.ShortFieldsAccepted | gantt_postventa.py:27-28 | unpadded fields are accepted: `1/5/2023` is 5 January 2023 |
| Calendar.FormatIso | gantt_postventa.py:40-41 | `%Y-%m-%d` is ten characters with dashes at positions 4 and 7 |
| Calendar.FormatIsoFields | gantt_postventa.py:40-41 | its three fields are the zero-padded digits of year, month and day |
| Calendar.FormatIsoInjective | gantt_postventa.py:40-41 | different dates get different `%Y-%m-%d` labels |
| Calendar.FormatMonth | gantt_postventa.py:43 | the month bucket is seven characters with a dash at position 4 |
| Calendar.FormatMonthFields | gantt_postventa.py:43 | its two fields are the zero-padded digits of year and month |
| Calendar.MonthIsIsoPrefix | gantt_postventa.py:40-43 | the month bucket of a date is the first seven characters of its `%Y-%m-%d` label |
| Calendar.DaysBetween | gantt_postventa.py:42 | no contract of its own (the difference of the two day numbers, the `.dt.days` of a date difference); DaysBetweenRoundTrip and AddDaysRoundTrip tie it to AddDays in both directions |
| Calendar.AddDays | gantt_postventa.py:37 | no contract of its own (adding a `Timedelta` of whole days, one day at a time); AddDaysOrdinal proves the result valid and its day number shifted by exactly k |
| Calendar.OrdinalOrder | gantt_postventa.py:42 | day numbers order dates as the calendar does, and equal day numbers mean equal dates |
| Calendar.AddDaysOrdinal | gantt_postventa.py:37 | adding `k` days to a valid date gives a valid date whose day number is `k` larger |
| Calendar.DaysBetweenRoundTrip | gantt_postventa.py:42 | adding the day difference `Fin - Inicio` to `Inicio` gives back `Fin` |
| Calendar.AddDaysRoundTrip | gantt_postventa.py:37 | the difference between a date and that date plus `k` days is `k` |
| Calendar.SupportedRange | gantt_postventa.py:28 | a valid date is representable iff its day number lies between those of 1677-09-22 and 2262-04-11 |
| Calendar.SpanFitsRange | gantt_postventa.py:42 | a whole-day difference fits a `Timedelta` (signed 64-bit nanoseconds) iff it is at most 106751 days either way |
| Calendar.SupportedSpanCanOverflow | gantt_postventa.py:42 | two representable dates can be too far apart to subtract: 1700-01-01 and 2000-01-01 are 109572 days apart |
| Loader.CleanRow | gantt_postventa.py:25-29 | a row is kept iff both of its dates read; a kept row has its normalised `RN`, its status and the two dates read from its cells |
| Loader.Clean | gantt_postventa.py:25-29 | no contract of its own (clean every row, drop those without two dates); CleanRows is the loop proved equal to it, and CleanIsSurvivorsCleaned, CleanedRowFacts and CleanEmpty say which rows it keeps and what they hold |
| Loader.CleanRows | gantt_postventa.py:25-29 | cleaning the rows one at a time gives the cleaned table |
| Loader.CleanIsSurvivorsCleaned | gantt_postventa.py:27-29 | the cleaned table corresponds one-to-one, in order, to the input rows whose two dates read, and these form a subsequence of the input |
| Loader.CleanedRowFacts | gantt_postventa.py:25-29 | every cleaned row has a normalised `RN` and two representable dates, and comes from an input row that survives |
| Loader.CleanEmpty | gantt_postventa.py:29-31 | the cleaned table is empty iff no input row has two readable dates |
| Loader.SampleRows | gantt_postventa.py:32-37 | exactly three rows, all with representable dates; SampleDay and SampleEnds pin their start and end dates, EmptyCleaningGivesSample the whole outcome |
| Loader.SampleEnds | gantt_postventa.py:32-37 | the sample end dates are 2023-01-31, 2023-02-01 and 2023-02-02 |
| Loader.SampleDay | gantt_postventa.py:32 | the three sample start days are 2023-01-01..03, all representable along with their ends 30 days later |
| Loader.Derive | gantt_postventa.py:40-43 | a derived row keeps `RN`, status and dates; its labels, duration and month bucket agree with its dates |
| Loader.DeriveColumns | gantt_postventa.py:40-43 | deriving the columns row by row derives every row |
| Loader.DerivedRowFacts | gantt_postventa.py:40-43 | in a derived row `Inicio + Duracion = Fin` (the duration may be zero or negative), both labels are ten characters and `Mes` is the first seven characters of `Fin_str` |
| Loader.CleanSupported | gantt_postventa.py:27-29 | every cleaned row has representable dates |
| Loader.Kept | gantt_postventa.py:29-38 | the rows that go on to derivation, cleaned or sample, all have representable dates |
| Loader.SampleSpansFit | gantt_postventa.py:32-42 | the sample rows last 30 days, so their durations never overflow |
| Loader.Loaded | gantt_postventa.py:20-60 | the success flag is true iff the fetch succeeded and every kept row's end minus start fits a `Timedelta`; otherwise the dataset is the error rows; the dataset is never empty |
| Loader.Load | gantt_postventa.py:20-60 | loading step by step, including the fallback when a duration overflows, gives the loaded outcome |
| Loader.LoadedRows | gantt_postventa.py:24-45 | when some row survives and no duration overflows, the load succeeds and the dataset is the cleaned rows with their derived columns, one per surviving input row |
| Loader.LoadedRowsWellFormed | gantt_postventa.py:31-45 | after a successful load every row, sample rows included, has derived columns that agree with its dates |
| Loader.OverflowingSpanFailsLoad | gantt_postventa.py:42-60 | a cleaned row whose end lies more than 106751 days from its start makes the duration at line 42 raise, and the load returns the error rows with flag false |
| Loader.EmptyCleaningGivesSample | gantt_postventa.py:31-45 | when nothing survives, the dataset is exactly the three sample rows: `Ejemplo 1..3`, statuses `En desarrollo`/`Entregado`/`Backlog`, starts 2023-01-01..03, ends 30 days later, duration 30, flag true |
| Loader.SampleLoaded | gantt_postventa.py:30-45 | when no row survives cleaning, the load succeeds on exactly the sample rows with their derived columns |
| Loader.SampleItems | gantt_postventa.py:32-43 | the derived sample rows are `Ejemplo 1..3` with statuses `En desarrollo`/`Entregado`/`Backlog`, start on 2023-01-01..03, end on 2023-01-31, 2023-02-01 and 2023-02-02, and last 30 days |
| Loader.ErrorItems | gantt_postventa.py:49-58 | exactly three rows; FailedLoadGivesErrorRows pins their status, duration and month bucket, and FallbackMonthsDiffer shows that bucket comes from the start date |
| Loader.FailedLoadGivesErrorRows | gantt_postventa.py:47-60 | a failed load, whether the fetch failed or a duration overflowed, gives exactly three rows with `RN` `Error - Sin datos`/`Ejemplo 2`/`Ejemplo 3`, status `Error`, duration 30, month bucket `2023-01` and the same dates as the sample |
| Loader.MonthOfJanuary2023 | gantt_postventa.py:58 | every January 2023 date has month bucket `2023-01` |
| Loader.FebruaryIsNotJanuary | gantt_postventa.py:43 | a February 2023 end date falls in a bucket other than `2023-01` |
| Loader.SampleStatusesAreNotError | gantt_postventa.py:35 | no sample status is `Error` |
| Loader.SampleHasNoErrorStatus | gantt_postventa.py:31-38 | the sample dataset never carries the status `Error`, so it cannot be mistaken for the error rows |
| Loader.FallbackMonthsDiffer | gantt_postventa.py:43-58 | the two fallbacks differ: the second error row's month bucket comes from its start date, not its end date, so it is not a row the derivation would produce |
| Colors.ColorOf | gantt_postventa.py:64-74 | a status has a colour iff the table lists it, and every colour is a `#rrggbb` value |
| Colors.TableIsHex | gantt_postventa.py:64-74 | every table entry is a `#rrggbb` value |
| Colors.SharedColors | gantt_postventa.py:64-74 | the only two statuses sharing a colour are `Para escribir` and `Error` |
| Colors.FallbackStatusesHaveColors | gantt_postventa.py:64-74 | the statuses of the sample and error rows all have their fixed colours |
| Options.BelowIrreflexive | gantt_postventa.py:143 | no string sorts before itself |
| Options.BelowTransitive | gantt_postventa.py:143 | the string order is transitive |
| Options.BelowTotal | gantt_postventa.py:143 | two different strings are ordered exactly one way |
| Options.Insert | gantt_postventa.py:143 | inserting into an ascending list keeps it ascending and adds exactly that value |
| Options.SortedDistinct | gantt_postventa.py:142-147 | the distinct values come out strictly ascending (hence sorted and free of duplicates), and are exactly the values present |
| Options.AscendingUnique | gantt_postventa.py:143 | an ascending list is determined by its set of elements |
| Options.SortedDistinctBySet | gantt_postventa.py:143 | columns holding the same set of values give the same list, whatever their order or repetitions |
| Options.OptionList | gantt_postventa.py:142-147 | an option list starts with `Todos`, then lists strictly ascending exactly the values present |
| Options.Menus | gantt_postventa.py:86-97 | both drop-downs start with `Todos`, then list strictly ascending exactly the month buckets (statuses) of the dataset |
| Options.Refresh | gantt_postventa.py:140-149 | a refresh stores the newly loaded dataset and rebuilds both lists from it; the load flag is dropped |
| Options.OptionsStartWithAllOnce | gantt_postventa.py:142-147 | when no value is `Todos`, `Todos` appears only at the head |
| Options.FailedRefreshOptions | gantt_postventa.py:140-147 | after any failed load (failed fetch or overflowing duration) the lists are `Todos, 2023-01` and `Todos, Error` |
| Filters.Filtered | gantt_postventa.py:167-170 | never more rows than its input; FilteredIsSelection, FilteredMembers and FilteredIsSubseq say exactly which rows survive, in order |
| Filters.FilteredIsSelection | gantt_postventa.py:167-170 | filtering keeps, in order, exactly the rows whose month bucket and status match, `Todos` matching anything |
| Filters.FilteredMembers | gantt_postventa.py:167-170 | a row is kept iff it is in the input and passes both drop-downs, and it is kept as often as it occurs |
| Filters.FilteredIsSubseq | gantt_postventa.py:167-170 | the filtered rows are a subsequence of the input |
| Filters.AllShowsEverything | gantt_postventa.py:167-170 | `Todos`/`Todos` is the identity |
| Filters.FilteredIdempotent | gantt_postventa.py:167-170 | filtering twice equals filtering once |
| Filters.FiltersCommute | gantt_postventa.py:167-170 | the month and status filters can be applied in either order |
| Chart.InsertByStart | gantt_postventa.py:186 | inserting into a start-sorted sequence keeps it sorted and adds exactly that row |
| Chart.SortByStart | gantt_postventa.py:186 | the sorted rows are non-decreasing by start date and a permutation of the input |
| Chart.SortedStartsAgree | gantt_postventa.py:186 | any two sorted arrangements of the same rows have the same start date at every position, so only the order of rows starting on the same day is left open |
| Chart.Distinct | gantt_postventa.py:187 | the categories have no duplicates and are exactly the identifiers present |
| Chart.DistinctKeepsFirstOrder | gantt_postventa.py:187 | categories come in order of first occurrence: every occurrence of a later category is preceded by an occurrence of each earlier one |
| Chart.RemainingDays | gantt_postventa.py:189-190 | days remaining are never negative: at least `Fin - today`, and either 0 or exactly `Fin - today` |
| Chart.RemainingDaysMeaning | gantt_postventa.py:189-190 | no days remain iff the end date is today or earlier; otherwise today plus the remaining days is the end date |
| Chart.RemainingFitsRange | gantt_postventa.py:189-190 | the days remaining can be computed iff no end date lies more than 106751 days from today |
| Chart.FarEndCannotBeDrawn | gantt_postventa.py:189-190 | a row ending on 1700-01-01 cannot be drawn on 2026-10-11: it ended 119352 days earlier |
| Chart.Height | gantt_postventa.py:216-221 | the height lies in [400, 1200]: 25 per row when that fits, 400 below, 1200 above |
| Chart.HeightMonotone | gantt_postventa.py:216-221 | more rows never give a shorter figure |
| Chart.HeightExamples | gantt_postventa.py:216-221 | 1 row gives 400, 20 rows 500, 48 rows 1200 |
| Chart.Title | gantt_postventa.py:201 | the title is `Postventa - `, then the status (or `Todos los estados`), then the three characters space, vertical bar, space, then the month (or `Todos los meses`); every character of the title is fixed by these segments and its length |
| Chart.TitleDistinguishesStatuses | gantt_postventa.py:201 | with the month fixed, two titles are equal iff they name the same status label, so the title tells the selected statuses apart (`Todos` reads as `Todos los estados`) |
| Chart.TitleDistinguishesMonths | gantt_postventa.py:201 | with the status fixed, two titles are equal iff they name the same month label |
| Chart.MarkerLabel | gantt_postventa.py:242 | the marker label is `Hoy: ` followed by today's `%Y-%m-%d`, 15 characters in all |
| Chart.MarkerLabelInjective | gantt_postventa.py:242 | different days give different marker labels |
| Chart.PaletteFor | gantt_postventa.py:175-184 | the dark palette is used iff the theme is `dark`; any other value gets the light one |
| Chart.MarkerBackground | gantt_postventa.py:245 | the label box is white iff the theme is `light` |
| Chart.MarkerMatchesPage | gantt_postventa.py:175-245 | the label box matches the page background iff the theme is one of the two values the switch offers |
| Chart.DrawTimeline | gantt_postventa.py:175-249 | fails iff some end date is too far from today for the days remaining at line 190; otherwise it draws the rows as LayOut states (sorted permuted bars with days remaining and colours, first-occurrence axis, height, title, palette, marker) |
| Chart.LayOut | gantt_postventa.py:186-249 | once the days remaining can be computed, the timeline has bars sorted by start that permute the rows, each with its days remaining and status colour; the axis is the distinct identifiers in first-occurrence order; height, title, palette, marker label, label box and marker line height as stated by Draws |
| Chart.TimelineAxis | gantt_postventa.py:186-199 | a drawn timeline has one bar per row, and its axis lists every identifier of the rows exactly once and nothing else |
| Chart.Source | gantt_postventa.py:159-165 | no contract of its own (the stored dataset, or the start-up one while nothing is stored); Chart.Render states the figure in terms of it |
| Chart.Render | gantt_postventa.py:158-249 | the placeholder `Sin datos con los filtros seleccionados` appears iff no row of the stored data (or of the startup data, while nothing is stored) passes the filters; the callback fails iff some passing row's days remaining overflow; otherwise the timeline is drawn from exactly the passing rows |

## Left out

- Fetching the sheet (`requests.get`, `raise_for_status`, `read_csv`, lines
  21-23) is network I/O and library parsing. The input is a `Fetch`: the
  rows as text, or `FetchFailed` when fetching or parsing raises. A
  missing `RN`, `Inicio` or `Fin` column (read at lines 25, 28 and 29) is
  such an exception. The one exception the fetched rows themselves can
  raise later, an overflowing duration at line 42, is modelled by
  `Loader.Loaded`. The header strip at line 24 raises nothing: the
  model takes the rows as already keyed by stripped column names.
- A sheet without an `Estado` column is not modelled: lines 24-43 never
  read that column, so the load succeeds, and the missing key only fails
  later, outside the `try`, when the status options are built (line 97 at
  start-up, line 146 in the refresh callback). Every `RawRow` carries a
  status, so the model cannot express this case.
- Clock reads (lines 19, 148, 189) are not modelled. `today` is a
  parameter, and `Chart.Render` requires it to be a representable date, as
  a real clock reading is. The "last update" text (line 148) and
  `debug_print` logging are cosmetic.
- Dash layout, callback wiring, the one-minute `dcc.Interval` and races
  between a timer tick and a manual refresh are not modelled, nor are the
  unused `mes_actual`/`estado_actual` arguments (lines 76-139).
- The `dcc.Store` round trip (`to_dict('records')` at line 149, then
  `pd.DataFrame` and `to_datetime` at lines 162-165) is modelled as
  identity. An absent store and an empty one (`not data`, line 159) are
  both the empty sequence.
- Plotly figure construction is not modelled: bar geometry, hover-template
  text, axes, legend, margins and the `px.scatter` object. The figure is
  reduced to the values the code computes for it.
- Calendar.ParseMdy: Python's `\d` also matches non-ASCII decimal digits.
  The model reads only ASCII digits.
- Loader.CleanRow: the model takes every `RN` and `Estado` cell as text.
  It does not model `astype(str)` turning an empty `RN` cell into `"nan"`.
  It does not model an all-number `RN` column either: `read_csv` reads it
  as numbers, and `astype(str)` prints them back, so leading zeros are
  lost (`001` becomes `1`) and a column with an empty cell reads as
  floats (`1234.0`). It also does not model an empty `Estado` cell, which
  pandas reads as a float NaN.
- Chart.SortByStart is one particular insertion order. `Chart.Render`
  promises only what the unstable `sort_values` promises: sorted by start
  and a permutation, with ties in any order. `Chart.SortedStartsAgree`
  shows that this fixes everything except the order of ties.
- Server start-up and port handling (lines 253-256) are not modelled.
