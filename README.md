# RainMaker candlestick aggregation and level detection, in Dafny

This project models the core of RainMaker, a bitFlyer trading bot written in
Python. The model covers two parts.

**The candlestick aggregation engine** (`bin/chart_data_generator.py`):

- `determine_period` is the period resolver. It maps a timestamp and a
  duration to the start of the timestamp's bucket. There are five rules:
  sub-minute, sub-hour, sub-day, calendar day, and ISO 8601 week (ISO
  8601:2004, section 4.1.4).
- `summarize` folds a dict of OHLCV bars into a dict of coarser bars.
- `query_tickers` turns stored tickers into one-tick bars.
- `run` chains `summarize` through every `Candlestick` duration.

The `Candlestick` duration table and the `ChartType` enumeration
(`libraries/exchanges/bitflyer/enumerations.py`) are modelled with them.

**The support/resistance detectors**:

- the five-bar pivot scan of `plot.py` and of the `Fractal` detector;
- the sliding-window extremes and the run-length level picker of
  `WindowShifting`;
- the minimum-separation test they share.

Modules, one file each:

| module | file | models |
|---|---|---|
| `Enumerations` | enumerations.dfy | `Candlestick`, `ProductCode`, the `chart_types` loop, `ChartType` name lookup and value aliasing |
| `Period` | period.dfy | `determine_period`, the calendar fields of an epoch instant, bucket nesting |
| `Aggregation` | aggregation.dfy | bars, insertion-ordered dicts, the merge rule, `summarize`, `query_tickers`' loop |
| `Chain` | chain.dfy | the theorem that summarising a summary equals summarising directly when durations nest |
| `Generator` | generator.dfy | `run` as written, the fifteen-minute counterexample, and a corrected chain |
| `SupportResistance` | support_resistance.dfy | bars, `is_far_from_level`, the level list shared by the detectors |
| `Plot` | plot.dfy | `is_support`, `is_resistance`, `detect_levels` |
| `Fractal` | fractal.dfy | the `Fractal` class with its shared list |
| `WindowShifting` | window_shifting.dfy | `_determine_max_or_min_within_window`, `_set_levels` |

**Timestamps** are whole seconds since 1970-01-01T00:00:00 UTC (a
Thursday). The date `(year, month, day)` is the day number since the epoch.
Hour, minute and second are read from the seconds. A `Stamp` also records
whether the `datetime` is tz-aware (UTC) or tz-naive. The week rule returns
the value of `datetime.fromisocalendar`, which carries no time zone.

**Dicts** keep insertion order. A `StickMap` is the key order plus a map.
Prices and volumes are integers, so max, min and sum are exact.

**Three behaviours of the code that a reader may not expect:**

- The week bucket is tz-naive rather than UTC (`Period.WeekBucket`).
- The merge is not commutative when two bars share an open or close
  timestamp: the bar seen first wins (`Aggregation.MergeOrderMattersOnTies`).
- Each level of `run` is summarised from the level before it. This does not
  give the direct summary at fifteen minutes (see Findings).

## Model

| member | source | states |
|---|---|---|
| `Period.MondayOfWeek` | bin/chart_data_generator.py:33-34 | The ISO week start of a day is a Monday, at most six days before it |
| `Period.FloorDivBounds` | bin/chart_data_generator.py:16 | Python's `divmod` quotient rounds down for either sign of the divisor |
| `Period.ResolverErrors` | bin/chart_data_generator.py:14-36 | For a positive duration the resolver fails exactly on unsupported durations, with `RuntimeError`; duration 0 fails with `ZeroDivisionError` |
| `Period.NegativeDurations` | bin/chart_data_generator.py:15-17 | For a negative duration `-m`, Python's floor `divmod` rounds the second up to the least multiple of `m` at or above it; the resolver succeeds with that second when it is below 60 and otherwise fails with `ValueError` naming it |
| `Period.MondayAfternoon` | bin/chart_data_generator.py:19-34 | 2021-11-08T13:47:22Z resolves to 13:45:00 at five minutes, and to that Monday's midnight at one week |
| `Period.SubMinuteBucket` | bin/chart_data_generator.py:15-17 | Below one minute: date, hour and minute are kept; the second is floored to a multiple of the duration; the bucket starts at or before the timestamp and covers it |
| `Period.SubHourBucket` | bin/chart_data_generator.py:19-22 | Below one hour: date and hour are kept; the minute is floored to a multiple of `d / 60`; the second is zero; the bucket covers the timestamp |
| `Period.SubDayBucket` | bin/chart_data_generator.py:24-27 | Below one day: the date is kept; the hour is floored to a multiple of `d / 3600`; minute and second are zero; the bucket covers the timestamp |
| `Period.DayBucket` | bin/chart_data_generator.py:29-30 | One day: midnight UTC of the same date |
| `Period.WeekBucket` | bin/chart_data_generator.py:32-34 | One week: tz-naive midnight of the Monday of the timestamp's ISO week, which covers the timestamp |
| `Period.Idempotent` | bin/chart_data_generator.py:14-36 | Resolving a bucket start again with the same duration returns it unchanged |
| `Period.DayWeekIdempotent` | bin/chart_data_generator.py:29-34 | Idempotence for the day and week rules |
| `Period.SubDayIdempotent` | bin/chart_data_generator.py:19-27 | Idempotence for the sub-hour and sub-day rules |
| `Period.SubMinuteIdempotent` | bin/chart_data_generator.py:15-17 | Idempotence for the sub-minute rule, negative durations included |
| `Period.DivisibleIsAligned` | bin/chart_data_generator.py:15-27 | A supported whole-unit duration that divides a coarser one nests in it |
| `Period.NestedPeriod` | bin/chart_data_generator.py:14-34 | Resolving a fine bucket start at an aligned coarser duration gives the coarse bucket of the original timestamp |
| `Period.SameFieldsSameBucket` | bin/chart_data_generator.py:14-34 | Instants that agree on the fields a rule keeps fall in the same bucket |
| `Aggregation.Aggregate` | bin/chart_data_generator.py:39-67 | The fold of `summarize` yields a dict without repeated keys whose map and key list agree |
| `Aggregation.Summarize` | bin/chart_data_generator.py:39-67 | The loop with in-place field updates computes the fold over the input items in order, and an empty dict gives an empty dict |
| `Aggregation.ErrorPersists` | bin/chart_data_generator.py:42-43 | An error raised on an item ends the pass with that error |
| `Aggregation.AggregateErrors` | bin/chart_data_generator.py:39-43 | The pass fails exactly when some key is rejected, with the first rejected key's error; it never fails on a supported duration |
| `Aggregation.AggregateKeys` | bin/chart_data_generator.py:42-55 | The output keys are exactly the buckets of the input keys |
| `Aggregation.BucketIsFold` | bin/chart_data_generator.py:42-65 | Each output bar is the merge fold of its bucket's members in input order; a bucket with no members is absent |
| `Aggregation.FoldFields` | bin/chart_data_generator.py:57-65 | A merged bar's volume is the members' sum and its high and low are their max and min; open and close come from the first member with the least open time and the first with the greatest close time |
| `Aggregation.FoldVolume` | bin/chart_data_generator.py:57 | A merged bar's volume is the members' total |
| `Aggregation.FoldHigh` | bin/chart_data_generator.py:58 | A merged bar's high is the greatest member high |
| `Aggregation.FoldLow` | bin/chart_data_generator.py:59 | A merged bar's low is the least member low |
| `Aggregation.FoldOpen` | bin/chart_data_generator.py:60-62 | A merged bar opens with the first member holding the least open time |
| `Aggregation.FoldClose` | bin/chart_data_generator.py:63-65 | A merged bar closes with the first member holding the greatest close time |
| `Aggregation.MergeWellFormed` | bin/chart_data_generator.py:57-65 | Merging two bars that satisfy low <= open, close <= high and open_ts <= close_ts gives such a bar |
| `Aggregation.AggregateWellFormed` | bin/chart_data_generator.py:46-65 | Well-formed input bars give well-formed output bars |
| `Aggregation.MergeAssociative` | bin/chart_data_generator.py:57-65 | The merge is associative, ties included |
| `Aggregation.MergeCommutes` | bin/chart_data_generator.py:60-65 | Bars with distinct open times and distinct close times merge the same in either order |
| `Aggregation.MergeOrderMattersOnTies` | bin/chart_data_generator.py:60-62 | With equal open times the bar merged into wins, so the order matters |
| `Aggregation.QueryTickers` | bin/chart_data_generator.py:77-93 | The ticker loop builds the seed dict, one entry per ticker timestamp, a later ticker overwriting an earlier one |
| `Aggregation.PutValid` | bin/chart_data_generator.py:83 | Assigning a key keeps the dict well formed and holds the key |
| `Aggregation.SeedValid` | bin/chart_data_generator.py:79-91 | The seed dict is well formed |
| `Aggregation.SeedKeys` | bin/chart_data_generator.py:79-91 | The seed keys are exactly the ticker timestamps, as UTC stamps |
| `Aggregation.SeedValues` | bin/chart_data_generator.py:79-91 | Each seed bar is the one-tick bar of the last ticker at its timestamp |
| `Aggregation.SeedBars` | bin/chart_data_generator.py:83-91 | Each seed bar has open = high = low = close and opens and closes at its key |
| `Chain.InsertTwice` | bin/chart_data_generator.py:57-65 | Two bars inserted into one bucket in a row act as their merge |
| `Chain.InsertSwap` | bin/chart_data_generator.py:57-65 | A merge into an existing bucket commutes with any other insert unless the two bars tie in one bucket |
| `Chain.ItemsAppend` | bin/chart_data_generator.py:45-55 | A new bucket is appended as the last item of the dict |
| `Chain.ItemsMerge` | bin/chart_data_generator.py:57-65 | A merge into an existing bucket updates its item in place |
| `Chain.Provenance` | bin/chart_data_generator.py:60-65 | Every output bar's open and close times are those of input bars of its bucket |
| `Chain.ApartLevel` | bin/chart_data_generator.py:60-65 | A bar whose times differ from every input bar's differs from every output bar's |
| `Chain.TieFreeLevel` | bin/chart_data_generator.py:42-65 | Summarising input without timestamp ties gives output without ties |
| `Chain.AggregateMergeAt` | bin/chart_data_generator.py:42-65 | Merging a bar into an input item before summarising equals inserting it into that item's bucket afterwards |
| `Chain.ChainStep` | bin/chart_data_generator.py:117-120 | The inductive step of the chain theorem |
| `Chain.NewBucketStep` | bin/chart_data_generator.py:45-55 | A bar opening a new fine bucket lands in the coarse bucket of that fine bucket's key |
| `Chain.OldBucketStep` | bin/chart_data_generator.py:57-65 | A bar merged into an existing fine bucket reaches the coarse bucket of that fine bucket's key |
| `Chain.ChainedEqualsDirect` | bin/chart_data_generator.py:117-120 | Summarising a summary at an aligned coarser duration equals summarising the input directly |
| `Generator.DurationsSupported` | libraries/exchanges/bitflyer/enumerations.py:4-19 | Every candlestick duration is one the resolver accepts |
| `Generator.SeedTieFree` | bin/chart_data_generator.py:83-91 | The seed has no timestamp ties |
| `Generator.ChainLevel` | bin/chart_data_generator.py:117-120 | Each level of the chain, when it exists, is a well-formed dict |
| `Generator.VisitNext` | bin/chart_data_generator.py:117-119 | Each iteration adds a new key to the result dict: the BTC_JPY member of the next duration |
| `Generator.ConsecutiveAligned` | libraries/exchanges/bitflyer/enumerations.py:5-19 | Consecutive durations nest except ten minutes followed by fifteen |
| `Generator.ChainLevelIsDirect` | bin/chart_data_generator.py:117-120 | Every level of the chain except fifteen minutes equals the direct summary of the seed |
| `Generator.FifteenMinuteLevel` | bin/chart_data_generator.py:117-120 | The fifteen-minute level is the ten-minute summary summarised again |
| `Generator.MinuteFloors` | bin/chart_data_generator.py:19-22 | Flooring a minute to tens and then to fifteens matches flooring it to fifteens, except for minutes 15-19 and 45-49 |
| `Generator.MisplacedMinutes` | bin/chart_data_generator.py:42-43 | Re-bucketing the ten-minute key at fifteen minutes is wrong exactly for minutes 15-19 within the half hour |
| `Generator.SubHourBucketAt` | bin/chart_data_generator.py:19-22 | A sub-hour bucket on the first hour of the epoch is 60 times its floored minute |
| `Generator.TenMinuteBucketOf900` | bin/chart_data_generator.py:19-22 | 00:15:00 lies in the ten-minute bucket 00:10:00 |
| `Generator.FifteenMinuteBucketOf600` | bin/chart_data_generator.py:19-22 | 00:10:00 lies in the fifteen-minute bucket 00:00:00 |
| `Generator.FifteenMinuteBucketOf900` | bin/chart_data_generator.py:19-22 | 00:15:00 starts a fifteen-minute bucket |
| `Generator.SingleBar` | bin/chart_data_generator.py:45-55 | A dict holding one bar summarises to that bar under its bucket |
| `Generator.FifteenMinuteCounterexample` | bin/chart_data_generator.py:117-120 | One tick at 00:15:00: the chain keys the fifteen-minute bar at 00:00, the direct summary at 00:15 |
| `Generator.GetChartType` | bin/chart_data_generator.py:118 | The ChartType attribute found for any product and duration is the BTC_JPY member of that duration |
| `Generator.Run` | bin/chart_data_generator.py:112-120 | `run` keys the result by the twelve BTC_JPY members in duration order, each holding the chained level |
| `Generator.Source` | bin/chart_data_generator.py:117-120 | The level each level is summarised from in the corrected chain is earlier, aligned with it, and divides its duration |
| `Generator.RunNested` | bin/chart_data_generator.py:117-120 | The corrected chain gives every level the direct summary of the seed |
| `Enumerations.Value` | libraries/exchanges/bitflyer/enumerations.py:4-19 | Every duration is positive |
| `Enumerations.CandlestickTable` | libraries/exchanges/bitflyer/enumerations.py:4-19 | The twelve durations, in iteration order, are 15 ... 604800 seconds, strictly ascending, each member once |
| `Enumerations.UnitsNest` | libraries/exchanges/bitflyer/enumerations.py:8-19 | A week is 7 days, a day 24 hours, an hour 60 minutes |
| `Enumerations.WholeUnits` | libraries/exchanges/bitflyer/enumerations.py:5-19 | Sub-minute values divide 60; sub-hour values are whole minutes dividing 60; sub-day values are whole hours dividing 24 |
| `Enumerations.TenMinutesDoNotDivideFifteen` | libraries/exchanges/bitflyer/enumerations.py:10-11 | Ten minutes comes right before fifteen and does not divide it |
| `Enumerations.ValueInjective` | libraries/exchanges/bitflyer/enumerations.py:4-19 | No two durations share a value |
| `Enumerations.TableGrows` | libraries/exchanges/bitflyer/enumerations.py:54-57 | Appending the next product and duration keeps every entry in its product-major place |
| `Enumerations.BuildChartTypes` | libraries/exchanges/bitflyer/enumerations.py:54-57 | The nested loop builds 8 x 12 entries, product-major, each named `{product}_{candlestick}` with the duration as value |
| `Enumerations.EntryOf` | libraries/exchanges/bitflyer/enumerations.py:54-57 | The entry for product `pi` and duration `ci` sits at `pi * 12 + ci` |
| `Enumerations.EntryAt` | libraries/exchanges/bitflyer/enumerations.py:54-57 | Every entry is some product's entry for some duration |
| `Enumerations.IndexOfName` | libraries/exchanges/bitflyer/enumerations.py:60 | Finds the first entry with a given name, or reports that none has it |
| `Enumerations.IndexOfValue` | libraries/exchanges/bitflyer/enumerations.py:60 | Finds the first entry with a given value, or reports that none has it |
| `Enumerations.ChartTypeOf` | libraries/exchanges/bitflyer/enumerations.py:60 | Attribute lookup fails exactly on undeclared names; a declared name resolves to the first entry carrying its value |
| `Enumerations.CandlestickNameInverse` | libraries/exchanges/bitflyer/enumerations.py:4-19 | Each member name is read back as its member |
| `Enumerations.ChartNameParts` | libraries/exchanges/bitflyer/enumerations.py:57 | A chart name is read back as its product, then an underscore and its candlestick name |
| `Enumerations.ChartNameInjective` | libraries/exchanges/bitflyer/enumerations.py:57 | Distinct product and duration pairs get distinct names |
| `Enumerations.NameFound` | libraries/exchanges/bitflyer/enumerations.py:57-60 | Every `{product}_{candlestick}` name is declared |
| `Enumerations.NameLookup` | libraries/exchanges/bitflyer/enumerations.py:57-60 | The entry found by name carries that duration |
| `Enumerations.ValueLookup` | libraries/exchanges/bitflyer/enumerations.py:57-60 | The first entry with a duration's value is the BTC_JPY entry |
| `Enumerations.ChartTypeAliases` | libraries/exchanges/bitflyer/enumerations.py:54-60 | Every product's name for a duration resolves to the BTC_JPY member of that duration |
| `SupportResistance.NearCount` | plot.py:26 | The count of recorded levels within `mean` of the candidate is zero exactly when all are at least `mean` away |
| `SupportResistance.IsFarFromLevel` | plot.py:25-26 | True exactly when every recorded level is at least `mean` away; with positive `mean` the candidate is not yet recorded. `fractal.py:39-40` and `window_shifting.py:36-37` hold the same test |
| `SupportResistance.SeparatedAppend` | plot.py:39-40 | Appending a level that passes the test keeps the levels pairwise at least `mean` apart |
| `SupportResistance.LevelStore.constructor` | libraries/signals/support_resistance/_abc.py:9 | The shared level list starts empty |
| `Plot.SupportIsStrictMinimum` | plot.py:11-15 | `is_support` holds exactly when the low is the strict minimum of its five-bar window with lows falling into it and rising out of it |
| `Plot.ResistanceMirrorsSupport` | plot.py:18-22 | `is_resistance` is `is_support` on the price-negated frame, and back |
| `Plot.Candidate` | plot.py:33-37 | A resistance proposes its high even when it is also a support; otherwise a support proposes its low; otherwise nothing |
| `Plot.End` | plot.py:32 | Indices 2 to n-3 are scanned; none when there are fewer than five bars |
| `Plot.ScanOrder` | plot.py:32-40 | The scan only appends, each appended level is a pivot's candidate, and pivots are kept in increasing index order |
| `Plot.ScanSeparated` | plot.py:39-40 | The kept levels are pairwise at least `mean` apart |
| `Plot.ScanCovers` | plot.py:39-40 | Every pivot's level was kept or lies strictly within `mean` of a kept level |
| `Plot.DetectLevels` | plot.py:29-42 | `detect_levels` returns the scan from a fresh list, so its result depends only on the frame and `mean`; the levels are pairwise at least `mean` apart; fewer than five bars give none |
| `Fractal.Fractal.constructor` | libraries/signals/support_resistance/_abc.py:11-13 | Constructing a detector scans its frame into an empty shared list, and leaves a non-empty shared list unchanged |
| `Fractal.Fractal.DetectLevels` | libraries/signals/support_resistance/fractal.py:9-25 | A non-empty list is returned without scanning; an empty one is filled with the scan of the detector's frame |
| `Fractal.Fractal.WithOwnLevels` | libraries/signals/support_resistance/fractal.py:9-25 | With a list of its own a detector holds exactly the scan of its own frame, pairwise separated |
| `Fractal.FrameLevels` | libraries/signals/support_resistance/fractal.py:15-23 | A V-shaped frame yields one support level; a flat frame yields none |
| `Fractal.SharedLevelsLeak` | libraries/signals/support_resistance/fractal.py:10-11 | A second detector sharing the list reports the first detector's levels instead of its own frame's |
| `Fractal.OwnLevelsDoNotLeak` | libraries/signals/support_resistance/fractal.py:9-25 | With a list per detector each reports its own frame's levels |
| `WindowShifting.ExtremeBounds` | libraries/signals/support_resistance/window_shifting.py:54 | The max (min) of a window is one of its elements and is at least (at most) all of them |
| `WindowShifting.ExtremeUnique` | libraries/signals/support_resistance/window_shifting.py:54 | An element dominating all others is the extreme |
| `WindowShifting.ExtremeConcat` | libraries/signals/support_resistance/window_shifting.py:51-54 | The extreme of two adjoining pieces is the extreme of their extremes, in either order |
| `WindowShifting.BlockStart` | libraries/signals/support_resistance/window_shifting.py:51 | The block of `i` starts at the largest multiple of `k` not above `i` |
| `WindowShifting.BlockEnd` | libraries/signals/support_resistance/window_shifting.py:52 | The block of `j` ends at the next index with `(idx + 1) % k == 0`, cut at `n` |
| `WindowShifting.BlockOfMultiple` | libraries/signals/support_resistance/window_shifting.py:51 | A multiple of `k` starts its own block |
| `WindowShifting.BlockContinues` | libraries/signals/support_resistance/window_shifting.py:51 | An index that is not a multiple of `k` is in the block of the index before it |
| `WindowShifting.BlockOfLast` | libraries/signals/support_resistance/window_shifting.py:52 | An index with `(j + 1) % k == 0` ends its block |
| `WindowShifting.WindowBlocks` | libraries/signals/support_resistance/window_shifting.py:54 | A window of `k` lies in one block when it starts one, and otherwise spans the end of one block and the start of the next |
| `WindowShifting.BlockScans` | libraries/signals/support_resistance/window_shifting.py:46-52 | `left[i]` is the extreme from the start of `i`'s block to `i`; `right[j]` is the extreme from `j` to the end of `j`'s block |
| `WindowShifting.ScanStart` | libraries/signals/support_resistance/window_shifting.py:47 | The first left entry and the last right entry start the scans |
| `WindowShifting.LeftExtend` | libraries/signals/support_resistance/window_shifting.py:51 | One assignment of the loop extends the left scan by one index |
| `WindowShifting.RightExtend` | libraries/signals/support_resistance/window_shifting.py:52 | One assignment of the loop extends the right scan by one index |
| `WindowShifting.LeftStep` | libraries/signals/support_resistance/window_shifting.py:51 | A block start restarts the left scan; another index extends its block's running extreme |
| `WindowShifting.RightStep` | libraries/signals/support_resistance/window_shifting.py:52 | A block end restarts the right scan; another index extends the running extreme to its block's end |
| `WindowShifting.WindowExtremes` | libraries/signals/support_resistance/window_shifting.py:39-54 | The result is empty when `n * k == 0` or `n < k`, and otherwise has `n - k + 1` entries, entry `i` the extreme of `nums[i .. i + k - 1]` |
| `WindowShifting.WindowSplit` | libraries/signals/support_resistance/window_shifting.py:54 | Combining `left[i + k - 1]` and `right[i]` gives the extreme of the window at `i` |
| `WindowShifting.WindowsMatch` | libraries/signals/support_resistance/window_shifting.py:54 | The block algorithm's output equals the direct window extremes |
| `WindowShifting.RunLength` | libraries/signals/support_resistance/window_shifting.py:23-25 | The run of equal values ending at `i` has length between 1 and `i + 1` |
| `WindowShifting.RunIsMaximal` | libraries/signals/support_resistance/window_shifting.py:23-25 | The run's values all equal the last one, and the value before the run differs |
| `WindowShifting.RunGrows` | libraries/signals/support_resistance/window_shifting.py:23-26 | Along a run the length grows by one per index, so a given length is reached at most once per run |
| `WindowShifting.RunStep` | libraries/signals/support_resistance/window_shifting.py:23-25 | Clearing the list on a new value and appending keeps it equal to the current run, so its length is the run length |
| `WindowShifting.PivotValuesRuns` | libraries/signals/support_resistance/window_shifting.py:26 | The pivot values are exactly the window extremes that complete a run of four at some step |
| `WindowShifting.PickedAppendsPivots` | libraries/signals/support_resistance/window_shifting.py:21-34 | The picker only appends, and only pivot values |
| `WindowShifting.PickedProvenance` | libraries/signals/support_resistance/window_shifting.py:26-34 | Every appended level completes a run of four equal window extremes at some step |
| `WindowShifting.PickedSeparated` | libraries/signals/support_resistance/window_shifting.py:26-37 | The picker keeps the recorded levels, highs and lows alike, pairwise at least `mean` apart |
| `WindowShifting.SetLevels` | libraries/signals/support_resistance/window_shifting.py:13-34 | `_set_levels` appends to the shared list exactly what the picker takes from the window highs and lows |
| `WindowShifting.PickLevels` | libraries/signals/support_resistance/window_shifting.py:18-34 | The loop from `pivot` to `n - pivot` keeps its window index inside the window arrays and appends what the picker takes |

## Left out

- The DynamoDB query of `query_tickers`, and the `plot`, `mplfinance` and `create_data_frame_from_ddb` functions. These are storage and drawing. The model takes the stored tickers and the bar frames as parameters.
- The last loop of `run` (`bin/chart_data_generator.py:122-123`) only plots.
- The exchange client, the websocket collector, the trading loop in `main.py`, the k-means detector and the threaded chart follower are not part of this model. They are network I/O, foreign numeric libraries and concurrency.
- The read-merge-write of bars into a store is not part of this model. No code in `run` persists bars.
- `numpy.mean(df['High'] - df['Low'])` is a floating-point mean. It is the parameter `mean`, a real.
- Prices are whole numbers, so `int(...)` on a level is the identity. Float truncation is not modelled.
- The model reads the frame columns by position. The frames the program builds are indexed by `period_from` timestamps (`plot.py:47-61`, `bin/chart_data_generator.py:106`), and on such a non-integer index pandas reads `df['Low'][i]` by position, so the model matches. A frame with integer labels would be read by label; the program builds none.
- Calendar dates are day numbers since the epoch. The Gregorian year, month and day are not computed. `isocalendar` and `fromisocalendar` appear only through their result, the Monday of the ISO week.
- The resolver is modelled on whole-second timestamps. Sub-second parts of a `datetime` are not modelled.
- Python compares and hashes tz-aware and tz-naive values as different keys. The model keeps this through the `utc` flag, but it does not model the `TypeError` an ordering comparison between them would raise.
- `WindowShifting` implements `_set_levels` and not the abstract `_detect_levels` (`libraries/signals/support_resistance/_abc.py:19-21`). Python therefore refuses to instantiate it, and none of its methods can ever run. The model gives its methods as stand-alone members that take the frame and the shared list as parameters.
- WindowShifting.PickLevels: the loop of `_set_levels` is a method of its own. `SetLevels` calls it after computing the two window arrays.
- The `levels` property of the abstract base only returns the shared list. The model reads `store.levels` directly.
- Chain.ChainedEqualsDirect: requires that no two input bars share an open time or a close time. With such ties, which bar supplies the open or close can depend on grouping (`Aggregation.MergeOrderMattersOnTies`). The seeds built from tickers never tie (`Generator.SeedTieFree`).

## Findings

| source | as written | input that shows it | evidently intended | confidence | as-written member | corrected member |
|---|---|---|---|---|---|---|
| bin/chart_data_generator.py:117-120 | Each level is summarised from the level just before it. The fifteen-minute level is built from the ten-minute bars, keyed by their bucket starts, and ten minutes does not divide fifteen. | One tick at 1970-01-01T00:15:00Z. Its ten-minute bucket is 00:10. Re-bucketed at fifteen minutes this gives 00:00, while the tick's own fifteen-minute bucket is 00:15. Ticks at minutes 15-19 and 45-49 are misplaced. | Every level equals the direct summary of the ticks. For that, fifteen minutes is summarised from five minutes, and every other level from the previous one. | not executed | `Generator.Run`, `Generator.FifteenMinuteCounterexample` | `Generator.RunNested` |
| libraries/signals/support_resistance/_abc.py:9 | `_levels` is a class attribute, so every detector appends to one list. `Fractal._detect_levels` returns that list unscanned whenever it is non-empty. | A `Fractal` over a V-shaped frame records level 1. A second `Fractal` over five identical bars then reports `[1]`, although its own frame has no pivots. | Each detector keeps its own list and reports its own frame's levels. | not executed | `Fractal.Fractal.DetectLevels`, `Fractal.SharedLevelsLeak` | `Fractal.Fractal.WithOwnLevels`, `Fractal.OwnLevelsDoNotLeak` |
