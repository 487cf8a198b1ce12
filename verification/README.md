# binance-bot alert pipeline, modelled in Dafny

This project models the decision core of a Binance futures alert bot and its
trader helpers. The bot fetches one-minute K-lines for every
TRADING PERPETUAL contract whose name neither starts nor ends with "USDC". It keeps them in a fixed window of minute slots, newest first, and
aggregates them into hourly records. From those it computes three signals:

- the ten-minute sliding volume;
- the 12-hour maximum high, for level breakouts;
- the ten-hour volume table, for the volume spike rule "six times the
  ten-minute volume is at least five times every hourly volume".

Raised alerts are kept in a slotted history. They get a buy price from the
K-lines, and their minimum and maximum prices are then followed for 48
hours. The loss, profit and stop-loss columns are derived from those prices
and summed up into metrics.

The first generation of the bot did the same work on CSV files. The project
models its versions as well:

- the minute window;
- `analyze_ticker`;
- the alerts copier;
- the calculator;
- the strategy tester's buy-price writer.

It also models the trader bot's helpers:

- newest-file search;
- ticker list comparison;
- side-aware extremes;
- position growth;
- the stop-loss band;
- the choice of tickers to open.

Each source area is one module:

| module | file | models |
|---|---|---|
| `Wrappers`, `Strings`, `Sorting` | wrappers.dfy, strings.dfy, sorting.dfy | Option/Result, `strip`/`split`/`replace`, a stable insertion sort, and `sorted` on strings |
| `Values`, `AlertRecords`, `HoursRecords`, `Candles` | values.dfy, alert_record.dfy, hours_record.dfy, candles.dfy | the records and their dict codecs |
| `Slots`, `KlineWindow`, `LegacyWindow`, `AlertHistory` | slots.dfy, kline_window.dfy, legacy_window.dfy, alert_history.dfy | the in-memory slot windows |
| `Fetch` | fetch.dfy | rate limiter, symbol list, request end time, result transpose |
| `MinuteVolumes`, `HourAggregates`, `HourVolumes`, `TotalVolume` | minute_volumes.dfy, hour_aggregates.dfy, hour_volumes.dfy, total_volume.dfy | the aggregators |
| `Signals`, `Starter`, `CurrentAlert` | signals.dfy, starter.dfy, current_alert.dfy | the signal rules and the tick's selection logic |
| `Calculator`, `Metrics` | calculator.dfy, metrics.dfy | buy price seeding, price following, metrics |
| `Calendar`, `KlineFilenames`, `LegacyCalculator`, `LegacyBuyPrice`, `AlertsCopy` | calendar.dfy, kline_filename.dfy, legacy_calculator.dfy, legacy_buy_price.dfy, alerts_copy.dfy | the first generation's file-based post-processing |
| `AlertFileSearch`, `TickerDiff`, `TraderLogic` | alert_file_search.dfy, ticker_diff.dfy, trader_logic.dfy | the trader bot's helpers |

Conventions of the model:

- Prices and volumes are `real`.
- Times are `int` milliseconds, or `DateTime` values where the code works
  on calendar fields.
- Anything the code reads from the clock, the file system or the exchange
  is a parameter: the current time, the second of the minute, a directory
  listing, the files present, and API responses.
- Exceptions the code catches become an explicit outcome: `None`, a
  datatype case, or "unchanged".

Where the repository's own description and its code differ, the model
follows the code. The exception is code that cannot run as written: the
fetch layer's and `calculate_1h_records`' record constructors raise on every
call, and the candle readers name fields the record lacks. There the model
describes the evident intent, and "## Left out" and "## Findings" give the
behaviour as written. The differences the model follows:

- The 10-minute volume's close time is the open time of the window's latest
  minute.
- A breakout compares the close of the symbol's FIRST candle in the minute
  list.
- At minute 0 the 12-hour horizon is the twelve newest completed hours,
  WITHOUT the dynamic hour, because the dynamic hour is appended only when
  the count is eleven.
- The first generation's `analyze_ticker` fires on any non-empty subset of
  the ten hourly columns.
- The strategy tester's buy price is the K-line close, although its variable
  is called `high_price`.

## Model

| member | source | states |
|---|---|---|
| Strings.StripSpec | Analytics_bot/alerts_copy.py:60 | `strip()` keeps a contiguous piece of the line, removes only white space, and leaves none at either end |
| Strings.SplitJoin | Analytics_bot/alerts_copy.py:118 | `row.split(',')` loses nothing: joining the fields back with commas gives the row |
| Strings.PadDigitsValue | Analytics_bot/Modules/Strategy_tester/buy_price_writer.py:79 | a zero-padded field that `strftime` writes reads back as the same number |
| Strings.DigitsPadValue | Analytics_bot/Modules/Strategy_tester/buy_price_writer.py:77 | a digit run that `strptime` reads is the zero-padded writing of its value |
| Sorting.SortBy | src/AnalyticsBot/calculator.py:86-87 | `list.sort(key=...)` returns a permutation of its input in key order |
| Sorting.SortByStable | src/AnalyticsBot/calculator.py:86-87 | the sort is stable: the elements of each key keep their input order |
| Sorting.SortStrings | src/TraderBot/ticker_utils.py:30-32 | `sort()` on a list without duplicates gives a strictly increasing permutation of it |
| Sorting.StrictlySortedUnique | src/TraderBot/ticker_utils.py:30-32 | two strictly increasing lists with the same strings are equal, so the sorted list is unique |
| Slots.Clamp | src/AnalyticsBot/ramstorage/ram_storage_utils.py:95-100 | the number of leading periods a reader visits: never more than the list holds, none for a count at or below zero, exactly the count in between |
| Slots.ShiftInsert | src/AnalyticsBot/ramstorage/ram_storage_utils.py:219-226 | after the right shift and the store, position `p` holds the new period, earlier positions are untouched, each later position holds its predecessor, the length is kept and the last period is gone |
| Slots.ShiftDown | src/AnalyticsBot/ramstorage/ram_storage_utils.py:222-223 | the element-by-element shift loop moves every period after `p` one place towards the end and leaves positions up to `p` alone |
| Slots.Recent | src/AnalyticsBot/ramstorage/ram_storage_utils.py:91-121 | `get_recent_1m_klines` / `get_recent_1h_klines` return exactly the non-empty periods found among the first min(count, length) periods, and no more of them than that |
| Slots.Flatten | src/AnalyticsBot/ramstorage/ram_storage_utils.py:131-134 | extending a list period by period yields exactly the items that occur in some period |
| KlineWindow.FirstOlder | src/AnalyticsBot/ramstorage/ram_storage_utils.py:188-200 | the scan stops at the first filled slot whose minute is older than the batch; no slot before it is such a slot |
| KlineWindow.FirstEmpty | src/AnalyticsBot/ramstorage/ram_storage_utils.py:189-191 | the first empty slot: every slot before it is filled |
| KlineWindow.InsertPosition | src/AnalyticsBot/ramstorage/ram_storage_utils.py:186-200 | the scan finds no position exactly when every slot is filled and none is older than the batch |
| KlineWindow.SaveKlines | src/AnalyticsBot/ramstorage/ram_storage_utils.py:157-226 | the slot count never changes; an empty batch or a minute already stored leaves the window as it was; otherwise the batch, sorted by open time, is stored in some slot |
| KlineWindow.SaveKlinesLoops | src/AnalyticsBot/ramstorage/ram_storage_utils.py:157-226 | the duplicate scan, the position scan, the fallback to the end and the shift loops of `save_klines_to_ram` compute the same window as `SaveKlines` |
| KlineWindow.SortUniform | src/AnalyticsBot/ramstorage/ram_storage_utils.py:183 | sorting a batch whose candles share one minute leaves it as it is (the sort is stable) |
| KlineWindow.SaveKlinesKeepsNewestFirst | src/AnalyticsBot/ramstorage/ram_storage_utils.py:186-226 | with a free slot, or with a batch newer than the oldest stored minute, a save keeps the filled slots a prefix with strictly decreasing minutes |
| KlineWindow.SaveNewestMinute | src/AnalyticsBot/ramstorage/ram_storage_utils.py:197-226 | a batch newer than every stored minute goes to slot 0 and every other slot moves back one place, the oldest falling off |
| KlineWindow.SaveOlderIntoFullWindow | src/AnalyticsBot/ramstorage/ram_storage_utils.py:203-226 | when every slot is filled and newer than the batch, the window is shifted twice: the batch lands in slot 0 and the newest stored minute appears in both slot 1 and slot 2, so the window is no longer newest-first |
| KlineWindow.RecentIsPrefix | src/AnalyticsBot/ramstorage/ram_storage_utils.py:91-104 | on a newest-first window the recent-minutes reader returns a prefix of the window: the first min(count, filled) slots, newest first |
| LegacyWindow.SaveToRam | Analytics_bot/ramstorage/ram_storage_utils.py:51-66 | an empty batch changes nothing; otherwise the batch becomes slot 0, slot i the old slot i−1, the old last slot is dropped, and the window keeps its 180 slots |
| LegacyWindow.SaveKlinesAgreesWithLegacy | Analytics_bot/ramstorage/ram_storage_utils.py:51-66 | for a one-minute batch newer than everything stored, the current window and the legacy shift-only window produce the same slots |
| AlertHistory.InsertAlert | src/AnalyticsBot/ramstorage/ram_storage_utils.py:56-73 | one insertion step keeps the slot count and leaves the alert as the last entry of slot 0 |
| AlertHistory.SaveAlertAsWritten | src/AnalyticsBot/ramstorage/ram_storage_utils.py:34-79 | the slot count never changes, and when slot 0 already holds an alert for the ticker the call returns False and changes nothing |
| AlertHistory.SaveAlertAsWrittenRepeats | src/AnalyticsBot/ramstorage/ram_storage_utils.py:50-75 | for a ticker no slot holds, the call as written returns True and leaves as many copies of the alert as the history has slots |
| AlertHistory.SaveAlertAsWrittenTwice | src/AnalyticsBot/ramstorage/ram_storage_utils.py:50-75 | a two-slot, empty history stores the same alert twice in slot 0 |
| AlertHistory.SaveAlert | src/AnalyticsBot/ramstorage/ram_storage_utils.py:48-75 | the call succeeds exactly when no slot holds the ticker; a refusal changes nothing; a success leaves exactly one alert for the ticker, the fresh alert, at the end of slot 0; the slot count never changes |
| AlertHistory.RecentAlerts | src/AnalyticsBot/ramstorage/ram_storage_utils.py:124-136 | `get_recent_alerts` holds exactly the alerts of the first min(minutes, length) slots; none for `minutes <= 0`, and a count past the length reads the whole history |
| AlertHistory.RecentAlertsStep | src/AnalyticsBot/ramstorage/ram_storage_utils.py:132-134 | the loop extends the result slot by slot: one minute further back appends that slot's alerts, in their order, after the alerts already collected |
| AlertHistory.CheckTickerAlertExistsSpec | src/AnalyticsBot/ramstorage/ram_storage_utils.py:138-141 | the check is true exactly when one of the first min(minutes, length) slots holds an alert for the ticker |
| AlertHistory.KeepSince | src/AnalyticsBot/ramstorage/ram_storage_utils.py:153 | the comprehension keeps exactly the alerts of the slot with `time >= cutoff`, never more than were there |
| AlertHistory.KeepSinceConcat | src/AnalyticsBot/ramstorage/ram_storage_utils.py:153 | the comprehension walks the slot in order: filtering a concatenation filters each part and keeps the parts in order |
| AlertHistory.KeepSinceSingle | src/AnalyticsBot/ramstorage/ram_storage_utils.py:153 | one alert is kept exactly when its time is not before the cutoff |
| AlertHistory.CleanOldAlerts | src/AnalyticsBot/ramstorage/ram_storage_utils.py:143-153 | every slot keeps exactly its alerts with `time >= now − hours·3600000`, in their order (the slot's own comprehension); the slot count is kept |
| AlertHistory.CleanOldAlertsIdempotent | src/AnalyticsBot/ramstorage/ram_storage_utils.py:143-153 | cleaning twice with the same clock reading leaves what cleaning once leaves |
| Candles.FromKline | src/AnalyticsBot/binance_utils/my_binance_utils.py:113-126 | the candle built from a kline carries the kline's symbol, open time, prices, quote volume and trade count |
| Candles.CandleToDict | Analytics_bot/ramstorage/ram_storage_utils.py:33-46 | `to_dict` writes exactly the ten listed keys and no `volume` key |
| Candles.CandleToDictLosesOnlyVolume | Analytics_bot/ramstorage/ram_storage_utils.py:33-46 | two candles have the same dict exactly when they differ at most in their base-asset volume |
| Values.Trunc | src/AnalyticsBot/ramstorage/AlertRecord.py:78 | `int()` of a float truncates toward zero: the result lies within one of the value on the side of zero |
| Values.EncodeReal | src/AnalyticsBot/ramstorage/AlertRecord.py:47-63 | an optional float cell as written (NA for None) is read back by `clean_value` as the same optional value |
| Values.CleanReal | src/AnalyticsBot/ramstorage/AlertRecord.py:70-73 | `clean_value` reads NA as None and a number of either kind as that number; writing an optional value and cleaning it gives the value back |
| AlertRecords.ToDict | src/AnalyticsBot/ramstorage/AlertRecord.py:41-64 | `to_dict` writes ticker, volume and time as they are; each of the seventeen optional cells is NA exactly where its field is None, and `clean_value` reads every cell back as its field |
| AlertRecords.FromDict | src/AnalyticsBot/ramstorage/AlertRecord.py:66-96 | `from_dict` takes ticker and volume as they are, reads time through `int()`, and sets each of the seventeen optional fields to `clean_value` of its cell, so NA becomes None in every one of them |
| AlertRecords.FromMinimalDict | src/AnalyticsBot/ramstorage/AlertRecord.py:75-105 | a row holding only ticker, volume and time reads as the alert `create_from_alert` builds from them |
| AlertRecords.CreateFromAlert | src/AnalyticsBot/ramstorage/AlertRecord.py:98-105 | a new alert carries the given ticker, reason as volume and time, and every optional field is None |
| AlertRecords.UpdatePrices | src/AnalyticsBot/ramstorage/AlertRecord.py:107-112 | sets the minimum and maximum prices and times and no other field |
| AlertRecords.UpdateRps | src/AnalyticsBot/ramstorage/AlertRecord.py:114-121 | sets the five RPS cells and the maximum loss and no other field |
| AlertRecords.UpdateRpb | src/AnalyticsBot/ramstorage/AlertRecord.py:123-130 | sets the five RPB cells and the maximum profit and no other field |
| HoursRecords.ToDict | src/AnalyticsBot/ramstorage/HoursRecord.py:20-29 | `to_dict` writes exactly the six keys symbol, open, close, high, low and total_volume |
| HoursRecords.FromDict | src/AnalyticsBot/ramstorage/HoursRecord.py:31-41 | `from_dict` needs the six keys, takes the symbol as it is and reads each of the five numbers through `float()` |
| HoursRecords.FromDictIgnoresExtraKeys | src/AnalyticsBot/ramstorage/HoursRecord.py:31-41 | keys other than the six, such as the aggregator's std and average keys, make no difference to what is read |
| AlertRecords.FromToDict | src/AnalyticsBot/ramstorage/AlertRecord.py:41-96 | reading back the dict a record writes gives the record |
| AlertRecords.ToFromDict | src/AnalyticsBot/ramstorage/AlertRecord.py:41-96 | writing back a row that was read reproduces it when its numbers already have the column's kind |
| AlertRecords.UpdatesCommute | src/AnalyticsBot/ramstorage/AlertRecord.py:107-130 | the three updates touch disjoint fields, so applying them in either order gives the same record |
| HoursRecords.FromToDict | src/AnalyticsBot/ramstorage/HoursRecord.py:20-41 | reading back the dict a record writes gives the record |
| HoursRecords.ToFromDict | src/AnalyticsBot/ramstorage/HoursRecord.py:20-41 | a readable dict of floats is reproduced on the six keys by writing back what was read |
| Fetch.StaleCount | src/AnalyticsBot/binance_utils/my_binance_utils.py:40-41 | the eviction loop removes exactly the leading timestamps older than `now − 60` and stops at the first one inside the window |
| Fetch.Evict | src/AnalyticsBot/binance_utils/my_binance_utils.py:40-41 | after eviction the queue is a suffix of the old one whose first entry lies inside the window |
| Fetch.WaitIfNeeded | src/AnalyticsBot/binance_utils/my_binance_utils.py:34-57 | each call keeps a suffix of the queue and appends exactly one timestamp; it sleeps exactly when at least `limit` entries remain and the oldest is less than 60 s old, for `60 − (now − oldest)` seconds, and then stamps the clock read after waking; it fails only with a limit of zero |
| Fetch.QueueStaysOrdered | src/AnalyticsBot/binance_utils/my_binance_utils.py:34-57 | over a clock that does not go back, the timestamp queue stays non-decreasing and ends with the newest request |
| Fetch.QueueBounded | src/AnalyticsBot/binance_utils/my_binance_utils.py:40-57 | away from the two edge cases, the queue never holds more than `limit` requests |
| Fetch.RateLimitBoundary | src/AnalyticsBot/binance_utils/my_binance_utils.py:40-54 | a timestamp exactly 60 s old is not evicted, and a sleep of exactly the wait time does not evict the oldest entry: in both cases a limit of one admits a second request |
| Fetch.TradingSymbols | src/AnalyticsBot/binance_utils/my_binance_utils.py:69-78 | keeps exactly the names of TRADING PERPETUAL contracts neither starting nor ending with "USDC" |
| Fetch.TradingSymbolsConcat | src/AnalyticsBot/binance_utils/my_binance_utils.py:70-75 | the filter keeps listing order: filtering two listings one after the other equals filtering their concatenation |
| Fetch.EndTime | src/AnalyticsBot/binance_utils/my_binance_utils.py:88-89 | the end time is one second before the start of the request's minute: it is 59000 modulo 60000 and strictly earlier than the request time |
| Fetch.EndTimeUnique | src/AnalyticsBot/binance_utils/my_binance_utils.py:88-89 | no other time is one second before a minute boundary within the request's minute |
| Fetch.LatestCandle | src/AnalyticsBot/binance_utils/my_binance_utils.py:84-143 | `fetch_ticker_1m_volumes` yields a candle exactly when the status is 200, the list is non-empty and the first kline closed before the request time; the candle carries that kline's open time, close and quote volume; every other outcome is None |
| Fetch.ConstructAsWritten | src/AnalyticsBot/binance_utils/my_binance_utils.py:113-126 | the dataclass constructor builds the candle exactly when every keyword passed is a field of `CandleRecord` (src/AnalyticsBot/ramstorage/CandleRecord.py:5-27), and then it is the intended candle |
| Fetch.ConstructAlwaysRaises | src/AnalyticsBot/binance_utils/my_binance_utils.py:113-126 | the call as written never builds a candle: `close_time` is not a field |
| Fetch.LatestCandleAsWritten | src/AnalyticsBot/binance_utils/my_binance_utils.py:105-143 | as written, `fetch_ticker_1m_volumes` returns None for every answer: the TypeError is caught at line 140 |
| Fetch.LatestCandleAsWrittenLosesCandle | src/AnalyticsBot/binance_utils/my_binance_utils.py:105-143 | a closed kline in a 200 answer: the intended fetch yields its candle where the code as written yields None |
| Fetch.RequestedKlineAccepted | src/AnalyticsBot/binance_utils/my_binance_utils.py:88-109 | a minute kline that opens on a minute boundary no later than the requested end time has closed before the request time, so the close-time test accepts it |
| Fetch.Successful | src/AnalyticsBot/binance_utils/my_binance_utils.py:198-204 | only tickers whose fetch returned a non-empty list are kept for the transposition |
| Fetch.Column | src/AnalyticsBot/binance_utils/my_binance_utils.py:213-218 | every candle of minute slot `k` is the `k`-th candle of some ticker |
| Fetch.ColumnSize | src/AnalyticsBot/binance_utils/my_binance_utils.py:213-218 | minute slot `k` holds exactly one candle per ticker with more than `k` candles |
| Fetch.Transpose | src/AnalyticsBot/binance_utils/my_binance_utils.py:213-218 | the transposition yields exactly `count` minute slots, slot `k` being the `k`-th candles in ticker order |
| Fetch.TransposeLoops | src/AnalyticsBot/binance_utils/my_binance_utils.py:213-218 | the nested loops, with the `minute_index < count` guard, build that transposition |
| TotalVolume.SingleHour | src/AnalyticsBot/total_volume_24h.py:8-18 | every symbol of the hour, and no other, maps to the sum of its records' `total_volume`; duplicate records add up |
| TotalVolume.HourVolumeConcat | src/AnalyticsBot/total_volume_24h.py:14-17 | the per-symbol sum over two runs of records is the sum of the two sums |
| TotalVolume.AddInto | src/AnalyticsBot/total_volume_24h.py:54-55 | merging an hour into the totals keeps every key of both and adds the volumes, a missing key counting as 0.0 |
| TotalVolume.Totals | src/AnalyticsBot/total_volume_24h.py:51-55 | folding hour by hour gives each symbol of any hour its volume summed over all the hours |
| TotalVolume.RequestCount | src/AnalyticsBot/total_volume_24h.py:28-32 | 24 previous hours are requested at minute 0 and 23 at any other minute |
| TotalVolume.ProcessNewRecord | src/AnalyticsBot/total_volume_24h.py:20-58 | the result is empty when no previous hour is found or fewer than requested; otherwise its keys are the symbols of the new and previous hours and each maps to its volume summed over all of them |
| TotalVolume.TotalsSplit | src/AnalyticsBot/total_volume_24h.py:47-55 | the total of a symbol is its volume in the new hour plus its volume over the previous hours |
| MinuteVolumes.MinOf | src/AnalyticsBot/analytic_utils.py:50-51 | the smallest stored minute: a member of the key set that no other key undercuts |
| MinuteVolumes.AscendingKeys | src/AnalyticsBot/analytic_utils.py:50-51 | `sorted(candle_dict.keys())` holds every key exactly once, in strictly increasing order |
| MinuteVolumes.IncreasingUnique | src/AnalyticsBot/analytic_utils.py:50-51 | the sorted key list is the only increasing list of those keys, so the sort has one answer |
| MinuteVolumes.WindowKeys | src/AnalyticsBot/analytic_utils.py:46-54 | with at least ten minutes stored, the window is ten stored minutes in increasing order |
| MinuteVolumes.WindowKeysAreLatest | src/AnalyticsBot/analytic_utils.py:50-54 | every stored minute outside the window is older than the window's earliest minute, so the window is the ten latest |
| MinuteVolumes.WindowSlots | src/AnalyticsBot/analytic_utils.py:56-57 | the candle lists of the window minutes, ten of them |
| MinuteVolumes.WindowVolumes | src/AnalyticsBot/analytic_utils.py:59-90 | None exactly when some minute lists a different number of candles than the earliest; otherwise one entry per candle of the earliest minute carrying its ticker and open time, the close time of the latest minute's candle at the same position, and as volume the sum of the quote volumes at that position over all the minutes |
| MinuteVolumes.WindowVolumeBySymbol | src/AnalyticsBot/analytic_utils.py:68-75 | when every minute lists the same distinct symbols in the same order, the volume of each entry is the total quote volume of its ticker over the window |
| MinuteVolumes.SidedWindow | src/AnalyticsBot/analytic_utils.py:31-90 | `calculate_10m_volumes_sidedWindow` is None with fewer than ten minutes and otherwise the window result of the ten latest minutes |
| MinuteVolumes.SidedWindowLoops | src/AnalyticsBot/analytic_utils.py:46-90 | the function's loops (per-minute length check, positional accumulation) compute the same result as the window definition |
| MinuteVolumes.WindowVolumesLoops | src/AnalyticsBot/analytic_utils.py:64-90 | the accumulation loop over the window yields the positional sums and stops with None at the first minute of a different length |
| MinuteVolumes.RestrictedWindowKeys | src/AnalyticsBot/analytic_utils.py:50-54 | keeping only the window minutes of the map leaves the same window |
| MinuteVolumes.OnlyLatestMinutesMatter | src/AnalyticsBot/analytic_utils.py:46-90 | the sliding-window result depends on the ten latest minutes only: deleting all older minutes does not change it |
| MinuteVolumes.VolumeOfConcat | src/AnalyticsBot/starter.py:43-45 | per-symbol volume sums are additive over concatenated candle lists |
| MinuteVolumes.VolumeOfSingle | src/AnalyticsBot/starter.py:43-45 | a symbol listed once contributes exactly its candle's quote volume |
| MinuteVolumes.SymbolTotals | src/AnalyticsBot/starter.py:42-45 | the `volumes` dict has one key per symbol that occurs and maps it to the sum of that symbol's quote volumes |
| MinuteVolumes.Update10mVolumes | src/AnalyticsBot/starter.py:33-49 | `update_10m_volumes` saves something exactly when the ten newest minute slots are all filled, and then the per-symbol totals of exactly those ten minutes |
| MinuteVolumes.RecentTen | src/AnalyticsBot/starter.py:35-39 | ten recent minutes are found exactly when the ten newest slots are filled, and they are then those slots in order |
| MinuteVolumes.PositionalMatchesBySymbol | src/AnalyticsBot/analytic_utils.py:68-75 | when every minute lists the same distinct symbols in the same order, the sliding window's positional sum equals the starter's per-symbol sum |
| HourAggregates.Symbols | src/AnalyticsBot/analytic_utils.py:210-217 | the keys of `symbols_data` in insertion order: each symbol that occurs, once |
| HourAggregates.CandlesOf | src/AnalyticsBot/analytic_utils.py:213-217 | `symbols_data[symbol]` holds exactly the candles of that symbol |
| HourAggregates.MaxHigh | src/AnalyticsBot/analytic_utils.py:254 | `max(highs)` bounds every high and is one of them |
| HourAggregates.MinLow | src/AnalyticsBot/analytic_utils.py:255 | `min(lows)` is below every low and is one of them |
| HourAggregates.SymbolRecord | src/AnalyticsBot/analytic_utils.py:237-275 | the record of a symbol: its highest high and lowest low, the open of an earliest candle and the close of a latest one by open time, and the summed quote volume |
| HourAggregates.CandlesOfVolume | src/AnalyticsBot/analytic_utils.py:241-258 | summing the grouped candles gives the same volume as summing that symbol over the whole listing |
| HourAggregates.Grouped | src/AnalyticsBot/analytic_utils.py:233-235 | the symbols kept are exactly those with at least two candles |
| HourAggregates.GroupedSymbols | src/AnalyticsBot/analytic_utils.py:233-235 | the records are given to exactly the symbols with at least two candles, each symbol once |
| HourAggregates.Calculate1hRecords | src/AnalyticsBot/analytic_utils.py:123-199 | `calculate_1h_records` as written raises IndexError exactly for no minutes or an empty first minute, raises exactly when some symbol has two or more candles (the record's constructor rejects its keywords), and otherwise stores nothing where the caller can see it |
| HourAggregates.GroupRecordsNonEmpty | src/AnalyticsBot/analytic_utils.py:135-146 | some symbol gets a record exactly when some symbol of the window has at least two candles |
| HourAggregates.Dynamic1h | src/AnalyticsBot/analytic_utils.py:202-278 | `calculate_1h_dynamic` gives nothing exactly for no minutes or an empty first minute, raises (ZeroOpen) exactly when a candle of a symbol with two or more candles opens at 0 (single-candle symbols are skipped before the division), and otherwise returns the grouped records of all the candles |
| HourAggregates.GroupRecords | src/AnalyticsBot/analytic_utils.py:233-276 | one record per symbol with two or more candles and for no other symbol, no symbol twice, and each record is the `SymbolRecord` of its symbol's candles |
| HourAggregates.MaxHighs | src/AnalyticsBot/analytic_utils.py:281-294 | `process_single_records` maps each symbol of the records to its highest high and has no other key |
| HourAggregates.MergeMax | src/AnalyticsBot/analytic_utils.py:326-330 | merging a period into the running maxima keeps the union of keys, never lowers a value, and each value comes from one side |
| HourAggregates.MergeIsMaxMap | src/AnalyticsBot/analytic_utils.py:326-330 | merging the maxima of two record lists gives the maxima of their concatenation |
| HourAggregates.Aggregate12h | src/AnalyticsBot/analytic_utils.py:300-343 | `agregate_12h_records` is None for no periods (a pool of zero workers raises, and the error is caught) and otherwise maps every symbol of every period to its highest high over all periods |
| HourAggregates.MergePeriods | src/AnalyticsBot/analytic_utils.py:323-330 | folding each period's maxima into the running dict gives the maxima of all the periods' records |
| HourAggregates.MaxMapUnique | src/AnalyticsBot/analytic_utils.py:300-339 | the maxima depend only on which records are present |
| HourAggregates.Aggregate12hOrderIndependent | src/AnalyticsBot/analytic_utils.py:323-330 | the periods may complete in any order: every permutation of them gives the same maxima |
| HourVolumes.LastVolume | src/AnalyticsBot/analytic_utils.py:387-395 | a period has a volume for a symbol exactly when one of its records carries that symbol |
| HourVolumes.Store | src/AnalyticsBot/analytic_utils.py:391-395 | storing one volume changes exactly the looked-up cell for that symbol and index, and adds the symbol |
| HourVolumes.StorePeriod | src/AnalyticsBot/analytic_utils.py:387-395 | after one period, every symbol it lists holds that period's last volume under its index and all other cells are unchanged |
| HourVolumes.StoreAll | src/AnalyticsBot/analytic_utils.py:383-395 | the table holds under index `k` (from 1) the last volume of period `k` and nothing under any other index |
| HourVolumes.TabledCount | src/AnalyticsBot/analytic_utils.py:370-378 | at most ten periods are tabled, and all of them when there are no more than ten |
| HourVolumes.Aggregate10h | src/AnalyticsBot/analytic_utils.py:346-400 | `aggregate_10h_volumes` is None exactly without historical periods; otherwise the latest period sits under the highest index, the historical periods under the lower indices in order, and no index lies outside one to ten |
| Starter.FilesToWork | src/AnalyticsBot/starter.py:67-71 | the dynamic hour reads as many minutes as the minute of the hour, and one at minute 0 |
| Starter.HourCount | src/AnalyticsBot/starter.py:84-87 | eleven hourly periods are read, twelve at minute 0 |
| Starter.Horizon | src/AnalyticsBot/starter.py:89-97 | the periods fed to the 12-hour maximum: the eleven newest hours plus the dynamic hour, or at minute 0 the twelve newest hours and no dynamic hour |
| Starter.DoTick | src/AnalyticsBot/starter.py:67-97 | the tick stops without dynamic data, stops on the dynamic hour's error, stops when no hourly period is found, and otherwise carries the dynamic records, the horizon's per-symbol maxima and the ten-hour volume table |
| Starter.RecentOfFilled | src/AnalyticsBot/ramstorage/ram_storage_utils.py:91-121 | over filled slots the reader returns exactly the first `count` of them |
| Starter.DynamicWindowSize | src/AnalyticsBot/starter.py:67-74 | with a filled minute window the dynamic hour covers exactly the minutes elapsed, and one minute at minute 0 |
| Starter.HorizonSpansTwelve | src/AnalyticsBot/starter.py:84-97 | with twelve filled hourly periods the horizon always spans twelve periods |
| Signals.PassesByRatio | src/AnalyticsBot/ticker_analytics.py:35-42 | for a positive hourly volume, the ratio test `multiplied / volume >= 5` is the same as the multiplied volume reaching five times the hourly volume |
| Signals.FirstFailure | src/AnalyticsBot/ticker_analytics.py:34-42 | the first hourly volume that is not positive or falls below the ratio, with all earlier ones passing, or none when all pass |
| Signals.MinRatio | src/AnalyticsBot/ticker_analytics.py:33-39 | the running `min_ratio` is at most every ratio and equal to one of them |
| Signals.ScanVerdict | src/AnalyticsBot/ticker_analytics.py:33-45 | the hourly loop fires exactly when every volume passes |
| Signals.AnalyzeTicker | src/AnalyticsBot/ticker_analytics.py:10-45 | `analyze_ticker` fires exactly when the ten-minute volume is known, at least ten hourly volumes are given and six times the ten-minute volume is at least five times each of them; the confidence is then the smallest ratio; a missing ten-minute volume is reported as such |
| Signals.AnalyzeTickerLoop | src/AnalyticsBot/ticker_analytics.py:23-45 | the statements of `analyze_ticker`, with the early returns, compute the verdict of the definition |
| Signals.ScanLoop | src/AnalyticsBot/ticker_analytics.py:33-45 | the loop with its running minimum and early returns computes the scan verdict |
| Signals.ScanStopsAt | src/AnalyticsBot/ticker_analytics.py:34-42 | the scan stops at the first failing hour and reports that hour (1-based) with the reason: not positive, or the ratio that fell short |
| Signals.MinRatioStep | src/AnalyticsBot/ticker_analytics.py:38-39 | one loop step turns the running minimum over the first `i` ratios into the minimum over the first `i + 1` |
| Signals.FirstFailureAt | src/AnalyticsBot/ticker_analytics.py:34-42 | the first failure is at `i` exactly when all earlier hours pass and hour `i` fails |
| Signals.MinRatioSnoc | src/AnalyticsBot/ticker_analytics.py:38-39 | the minimum ratio of a list is the smaller of the last ratio and the minimum of the rest |
| Signals.ProcessTickers | src/AnalyticsBot/ticker_analytics.py:47-80 | `process_tickers_analytics` returns only tickers of the input that fire, each with its confidence, and every ticker that fires is returned |
| Signals.ProcessTickersSingle | src/AnalyticsBot/ticker_analytics.py:62-70 | one ticker gives itself with its confidence when it fires, and nothing otherwise |
| Signals.ProcessTickersConcat | src/AnalyticsBot/ticker_analytics.py:62-70 | the loop visits the tickers in order: the result for a concatenation is the result for each part, in order, so each occurrence of a firing ticker is reported at its place |
| Signals.Collected | Analytics_bot/ticker_analytics.py:207-214 | the first generation collects the present values of the columns `total_volume_1` .. `total_volume_10`, no more than ten, each taken from one of those columns |
| Signals.LegacyAnalyzeTicker | Analytics_bot/ticker_analytics.py:199-240 | the first generation fires exactly when the ten-minute volume is known, at least one column is present and every present value passes; the confidence is then the smallest of the ratios (`IsMinRatio`: no ratio is below it and one equals it) |
| Signals.LegacyScan | Analytics_bot/ticker_analytics.py:219-238 | over the present columns, the loop fires exactly when every value passes, reports Unmet otherwise, and returns the smallest ratio as confidence |
| Signals.FullRow | Analytics_bot/ticker_analytics.py:207-214 | a row built from ten hourly volumes holds exactly the columns one to ten |
| Signals.CollectedFull | Analytics_bot/ticker_analytics.py:207-214 | on a row holding all ten columns the collected values are the volumes in column order |
| Signals.GenerationsAgreeOnTenHours | Analytics_bot/ticker_analytics.py:199-240 | on ten hourly volumes the first and the current generation of `analyze_ticker` fire on the same inputs and with the same confidence |
| Signals.GenerationsDifferOnShortInput | src/AnalyticsBot/ticker_analytics.py:29-30 | the current generation demands ten hours: one passing column fires the first generation but not the current one |
| Signals.CollectedAbsent | Analytics_bot/ticker_analytics.py:211-217 | a row without any of the columns yields no values, so the first generation reports missing data |
| Signals.FirstClose | src/AnalyticsBot/level_breakout_12h.py:26-34 | `latest_closes` keeps the close of the first candle of each symbol, and has no entry for an absent symbol |
| Signals.Ups | src/AnalyticsBot/level_breakout_12h.py:36-44 | `tickers_up` holds exactly the symbols whose kept close is strictly above their aggregated high, with the difference |
| Signals.UpsDistinct | src/AnalyticsBot/level_breakout_12h.py:37-44 | `tickers_up` is a dict: over distinct symbols no symbol is listed twice |
| Signals.LevelBreakout | src/AnalyticsBot/level_breakout_12h.py:24-52 | `process_level_breakout_12h` lists exactly the breakouts, each with its positive difference, no symbol twice, in descending order of the difference |
| Signals.ByDifference | src/AnalyticsBot/level_breakout_12h.py:48 | `sorted(..., key=difference, reverse=True)` keeps exactly the pairs it is given, keeps symbols distinct, and orders them by descending difference |
| Signals.ByDifferenceStable | src/AnalyticsBot/level_breakout_12h.py:48 | the sort is stable: the pairs sharing one difference keep their given order |
| Signals.LevelBreakoutTiesInOrder | src/AnalyticsBot/level_breakout_12h.py:28-48 | breakouts with equal differences are listed in the order their symbols first appear in the candles |
| Signals.DistinctSymbolsPermutation | src/AnalyticsBot/level_breakout_12h.py:48 | reordering the dict's items keeps its keys distinct |
| CurrentAlert.PricedAlerts | src/AnalyticsBot/analytic_utils.py:106-119 | `process_new_rows` keeps exactly the alerts whose buy, min and max prices are present and non-zero, in order |
| CurrentAlert.PricedAlertsConcat | src/AnalyticsBot/analytic_utils.py:111-119 | the filter distributes over concatenation, so it keeps the input order |
| CurrentAlert.PricedAlertsIdempotent | src/AnalyticsBot/analytic_utils.py:111-119 | filtering the kept alerts again keeps all of them |
| CurrentAlert.UpdateCurrentAlert | src/AnalyticsBot/analytic_utils.py:92-121 | `update_current_alert` changes nothing exactly when the alerts equal the current ones or are empty (the caught IndexError); otherwise it remembers them and appends one batch holding exactly their priced alerts |
| CurrentAlert.UpdateCurrentAlertIdempotent | src/AnalyticsBot/analytic_utils.py:96-101 | a second update with the same alerts finds them equal to the current ones and appends nothing |
| Calculator.HighOrZero | src/AnalyticsBot/buy_price_writer.py:14-18 | the running high of a symbol starts at 0.0, bounds every high of that symbol and is 0.0 or one of them |
| Calculator.HighPriceByTicker | src/AnalyticsBot/buy_price_writer.py:10-19 | `_high_price_by_ticker` has a key for every symbol present and no other, each mapped to max(0.0, its highest high) |
| Calculator.Seed | src/AnalyticsBot/buy_price_writer.py:30-36 | an alert without buy price whose ticker has a price gets it as buy, min and max price; any other alert is unchanged; identity and the stop-loss columns are kept |
| Calculator.UpdateBpw | src/AnalyticsBot/buy_price_writer.py:22-38 | `update_bpw` keeps the alerts and their order and seeds each one from the high prices of the candles |
| Calculator.UpdateBpwIdempotent | src/AnalyticsBot/buy_price_writer.py:30-36 | seeding twice is seeding once |
| Calculator.Track | src/AnalyticsBot/calculator.py:37-45 | the min price changes exactly when it is missing or the low is lower, the max price exactly when it is missing or the high is higher, each change stamped with the candle time; identity and stop-loss columns are kept |
| Calculator.UpdateOne | src/AnalyticsBot/calculator.py:26-35 | an alert is followed only when it is at most 48 hours old and its ticker has a candle, and otherwise untouched |
| Calculator.UpdateAlertRecord | src/AnalyticsBot/calculator.py:17-45 | `update_alert_record` keeps every alert's identity, leaves stale and candle-less alerts alone, follows each recent alert with a candle by its candle's low and high, never raises a min price and never lowers a max price |
| Calculator.UpdateAlertRecordIdempotent | src/AnalyticsBot/calculator.py:37-45 | a second update with the same candles changes nothing |
| Metrics.ColumnSumConcat | src/AnalyticsBot/calculator.py:54-83 | the column sums of a concatenation are the sums of the parts |
| Metrics.ColumnSumAbsent | src/AnalyticsBot/calculator.py:55-83 | alerts whose column is absent add nothing to its sum |
| Metrics.Pairs | src/AnalyticsBot/calculator.py:66-83 | the (ticker, value) pairs collected for the top lists come from the alerts whose column is present |
| Metrics.Present | src/AnalyticsBot/calculator.py:66-83 | the number of collected pairs |
| Metrics.Top | src/AnalyticsBot/calculator.py:85-90 | the top list holds min(10, n) of the pairs, in descending order of value, and every pair left out is no larger than every pair kept |
| Metrics.TopStable | src/AnalyticsBot/calculator.py:86-89 | Python's sort is stable: for each value, the top list holds a prefix of the input's pairs of that value, in input order |
| Metrics.SortedPrefixStable | src/AnalyticsBot/calculator.py:86-89 | every prefix of the stable sort holds, for each value, a prefix of the input's pairs of that value |
| Metrics.WithKeyPrefix | src/AnalyticsBot/calculator.py:89-90 | cutting a sorted list keeps a prefix of the entries of each value |
| Metrics.MetricsOf | src/AnalyticsBot/calculator.py:48-93 | the metrics: each sum over the present values of its column, the top-10 loss and profit lists, and the number of alerts |
| Metrics.CalculateAlertMetrics | src/AnalyticsBot/calculator.py:48-93 | the one-pass accumulation of the calculator computes the metrics |
| Metrics.Accumulate | src/AnalyticsBot/calculator.py:54-83 | the loop over the alerts adds each present column value to its sum and collects the loss and profit pairs in alert order |
| Metrics.MonitorMetrics | src/AnalyticsBot/alert_metrics_monitor.py:36-89 | the monitor returns the default metrics for an empty list |
| Metrics.MonitorAgreesWithCalculator | src/AnalyticsBot/alert_metrics_monitor.py:36-89 | the monitor's copy and the calculator's copy of `calculate_alert_metrics` agree on every input, the empty list included |
| Calendar.DaysInMonth | Analytics_bot/Modules/Strategy_tester/buy_price_writer.py:77 | the month lengths `strptime` accepts: 28 to 31 days, and 29 exactly for February of a leap year |
| Calendar.FormatTimestamp | Analytics_bot/calculator.py:151 | `strftime("%Y-%m-%d %H:%M:%S")` writes the canonical layout of four, two, two, two, two and two digits |
| Calendar.ParseTimestamp | Analytics_bot/Modules/Strategy_tester/buy_price_writer.py:77 | `strptime(s, '%Y-%m-%d %H:%M:%S')` succeeds exactly on a text of the canonical layout whose fields form a real date and time, and then returns those fields |
| Calendar.ParseFormat | Analytics_bot/Modules/Strategy_tester/buy_price_writer.py:77-79 | reading back a written timestamp gives the same date-time |
| Calendar.FormatParse | Analytics_bot/Modules/Strategy_tester/buy_price_writer.py:77 | writing a parsed timestamp reproduces the text it was read from |
| KlineFilenames.FirstMatch | Analytics_bot/calculator.py:86 | `re.search` finds the leftmost index where `K_line_DDDDDDDD_DDDDDD.csv` matches, or reports that no index does |
| KlineFilenames.ExtractTime | Analytics_bot/calculator.py:83-95 | `extract_time_from_kline_filename` parses the date-time written in the first match, and returns the current time when there is no match |
| KlineFilenames.KlineFilename | Analytics_bot/Modules/Strategy_tester/buy_price_writer.py:79 | the K-line file name has the fixed length, matches the K-line pattern and always writes 00 seconds |
| KlineFilenames.TimestampToFilename | Analytics_bot/Modules/Strategy_tester/buy_price_writer.py:74-83 | `parse_timestamp_to_filename` gives a name exactly when the timestamp parses, and then the K-line file name of its minute |
| KlineFilenames.FilenameRoundTrip | Analytics_bot/Modules/Strategy_tester/buy_price_writer.py:74-83 | the calculator reads back from the writer's file name the timestamp with its seconds zeroed |
| LegacyCalculator.TrackRow | Analytics_bot/calculator.py:142-165 | a lower low replaces the minimum and a higher high the maximum, each with the K-line time; a missing price counts as the buy price; nothing else changes, and the row is unchanged exactly when no price moves |
| LegacyCalculator.Tracked | Analytics_bot/calculator.py:123-165 | only rows at least as new as the 48-hour threshold whose ticker has a K-line row are tracked, against the first such row |
| LegacyCalculator.UpdatedCount | Analytics_bot/calculator.py:133-165 | `updated_count` is zero exactly when no tracked row moves a price |
| LegacyCalculator.Percent | Analytics_bot/calculator.py:223-228 | the loss and profit percentages over the buy price, with an exact zero replaced by 0.001, so never zero |
| LegacyCalculator.StopLossCell | Analytics_bot/calculator.py:242-275 | a cell holding -i or 0 is kept; otherwise -i or 0 when the lead percentage exceeds `i`, the extremes came in the required order and the other percentage is below 3 or between 3 and 5; otherwise 30% of the other percentage |
| LegacyCalculator.Recompute | Analytics_bot/calculator.py:242-275 | each of the five cells is recomputed at its own level, one to five |
| LegacyCalculator.DeriveRow | Analytics_bot/calculator.py:214-279 | `calculate_derived_fields` leaves a row with zero buy price alone (the caught error) and otherwise sets the loss and profit percentages and recomputes the RPS cells (profit leads, minimum first) and the RPB cells (loss leads, maximum first), leaving the prices and times alone |
| LegacyCalculator.UpdateRow | Analytics_bot/calculator.py:142-172 | a row of a rewritten file is tracked and then derived: its minimum never rises, its maximum never falls, and a settled cell keeps its value |
| LegacyCalculator.UpdateAlertFile | Analytics_bot/calculator.py:110-179 | `update_alert_file` rewrites the file exactly when some recent row moves a price, and then every row is tracked and derived |
| LegacyCalculator.PercentSign | Analytics_bot/calculator.py:223-228 | over a positive buy price the percentage is positive exactly when the move is not negative (a zero move becomes 0.001) |
| LegacyCalculator.DeriveRowIdempotent | Analytics_bot/calculator.py:214-279 | deriving the fields a second time changes nothing |
| LegacyBuyPrice.PriceForTicker | Analytics_bot/Modules/Strategy_tester/buy_price_writer.py:107-120 | `get_high_price_for_ticker` returns the close of the ticker's first row of the K-line file, and None exactly when the ticker is absent |
| LegacyBuyPrice.Requests | Analytics_bot/Modules/Strategy_tester/buy_price_writer.py:165-201 | each row without buy price asks for the price of its K-line file and gets one exactly when the file is named, present and holds the ticker |
| LegacyBuyPrice.LastPrice | Analytics_bot/Modules/Strategy_tester/buy_price_writer.py:194-195 | the price stored for a ticker is that of its last row that got one, and there is none exactly when no row of the ticker got one |
| LegacyBuyPrice.CollectUpdates | Analytics_bot/Modules/Strategy_tester/buy_price_writer.py:177-201 | the `updates` dict holds exactly the tickers of rows that got a price, each with the price of its last such row |
| LegacyBuyPrice.ApplyUpdates | Analytics_bot/Modules/Strategy_tester/buy_price_writer.py:122-145 | `update_alert_file` sets buy, min and max price of every row of an updated ticker to its price and leaves all other rows as they are |
| LegacyBuyPrice.ProcessAlertFile | Analytics_bot/Modules/Strategy_tester/buy_price_writer.py:147-212 | `process_alert_file` rewrites the file exactly when some row without buy price gets a price, and then with the collected updates applied |
| LegacyBuyPrice.ProcessedTickersPriced | Analytics_bot/Modules/Strategy_tester/buy_price_writer.py:130-135 | after a rewrite every row of a resolved ticker has a buy price, and its min and max equal it |
| AlertsCopy.ReadFileRows | Analytics_bot/alerts_copy.py:53-66 | `read_file_rows` holds exactly the non-empty stripped lines of the file |
| AlertsCopy.ReadRowsStripped | Analytics_bot/alerts_copy.py:59-62 | a read row is non-empty and has no white space at either end |
| AlertsCopy.CheckForNewRows | Analytics_bot/alerts_copy.py:68-94 | `check_for_new_rows` does nothing unless the file is newer; then it records the time and returns the rows not seen before, and replaces the remembered rows only when there are some |
| AlertsCopy.Filter | Analytics_bot/alerts_copy.py:113-130 | the kept rows are exactly the new rows that are not a header, have at least six fields and have buy, min and max price filled |
| AlertsCopy.ProcessNewRows | Analytics_bot/alerts_copy.py:96-134 | `process_new_rows` writes exactly when the header line is non-empty and some new row is kept, and then writes the kept rows |
| AlertsCopy.SleepTime | Analytics_bot/alerts_copy.py:166-180 | `wait_for_50th_second` sleeps until the first moment that is second 50, less than a minute |
| AlertsCopy.CalcFilenameOfDate | Analytics_bot/alerts_copy.py:139-142 | the calc file of `alerts_DATE.csv` is `alerts_calc_DATE.csv` |
| AlertsCopy.AppendToCalcFile | Analytics_bot/alerts_copy.py:136-164 | a new calc file starts with the header and then the rows; an existing one only grows by the rows |
| AlertFileSearch.ReplaceStep | src/AlertFileSearcher.py:27-29 | a candidate with a strictly later date becomes the first latest of the names seen so far |
| AlertFileSearch.LatestFile | src/AlertFileSearcher.py:6-63 | `get_latest_alert_file` and `get_latest_alert_calc_file` raise exactly for a missing directory, return nothing exactly when no name matches with a real date, and otherwise the joined path of the first name carrying the latest date |
| AlertFileSearch.CalcNamesAreNotAlerts | src/AlertFileSearcher.py:9-19 | the raw-alerts pattern never matches a calc file name |
| AlertFileSearch.CalcDateAgrees | src/AlertFileSearcher.py:9-39 | both patterns read the same date from a raw alerts name and the calc name with the same date |
| TickerDiff.Dedup | src/TraderBot/ticker_utils.py:21-22 | `set(...)` keeps each ticker once and loses none |
| TickerDiff.Select | src/TraderBot/ticker_utils.py:25-27 | set difference and intersection: the tickers of one list that are (or are not) in the other, each once |
| TickerDiff.CompareTickers | src/TraderBot/ticker_utils.py:6-41 | `compare_tickers` lists the added, removed and kept tickers, each list sorted and without duplicates and holding exactly the tickers new only, old only, and in both |
| TickerDiff.ComparisonDetermined | src/TraderBot/ticker_utils.py:29-32 | each list is the one strictly sorted list of its tickers, so the result is fully determined |
| TickerDiff.CompareSelf | src/TraderBot/ticker_utils.py:21-32 | comparing a list with itself adds and removes nothing and keeps every ticker once, sorted |
| TickerDiff.SampleComparison | src/TraderBot/TEST_COMPARE.py:6-11 | the sample comparison adds AMD, INTC and META and removes FB and NFLX |
| TraderLogic.PriceFromList | src/TraderBot/logic.py:8-21 | `get_price_from_list` returns the price of the first entry of the ticker, and 0 when there is none |
| TraderLogic.MaximiseWithSide | src/TraderBot/logic.py:24-28 | the larger of the two values for BUY, the smaller for any other side, and always one of them |
| TraderLogic.PositionGrow | src/TraderBot/logic.py:31-33 | `get_position_grow` fails exactly for a zero entry price; otherwise growing the entry by that percentage gives the current price |
| TraderLogic.PositionGrowSign | src/TraderBot/logic.py:31-33 | for a positive entry the growth is zero exactly at the entry price and positive exactly above it |
| TraderLogic.AnalyzeStopLoss | src/TraderBot/logic.py:35-44 | `analyze_stop_loss` fires exactly for a buy whose change lies strictly inside the band, or for any side whose negated change does |
| TraderLogic.CheckAvailablePosition | src/TraderBot/logic.py:46-74 | `check_available_position` returns, sorted and without duplicates, exactly the tickers that are new, not in the old list and not yet open |
| TraderLogic.AvailablePositionDetermined | src/TraderBot/logic.py:60-74 | no other order or duplicate is possible: any strictly sorted list of those tickers is the result |

## Left out

- File and network I/O, `watchdog` events, `asyncio` and thread locks, logging and every message text. The model's operations take the data those calls produce as parameters, and return the data they would write.
- Concurrency: `agregate_12h_records` runs on a process pool and merges results in completion order. The model merges in list order, and `HourAggregates.Aggregate12hOrderIndependent` shows that the order does not matter. The fetch layer's `as_completed` order is taken as the given order.
- Floating point: `real` is exact, so rounding, NaN and infinities are not modelled. This includes the legacy writer's NaN buy cells, which are taken as absent.
- The mean and standard-deviation statistics of `calculate_1h_dynamic`. `HoursRecord.from_dict` drops them, so they never reach a record.
- `calculate_1h_records` (src/AnalyticsBot/analytic_utils.py:123-199) is modelled only by its outcome, `HourAggregates.Calculate1hRecords`, and never fills the hourly window. It passes `HoursRecord` (src/AnalyticsBot/ramstorage/HoursRecord.py:5-18) keyword arguments that the six-field dataclass does not have, so the first symbol with two candles raises TypeError. src/AnalyticsBot/starter.py:58 calls it outside any `try`, and the main loop (starter.py:167-181) catches only KeyboardInterrupt. When no symbol has two candles, line 130 has rebound the parameter to a fresh list, so the global `candle_1h_records` (src/AnalyticsBot/ramstorage/ram_storage_utils.py:14) stays empty. The statistics it would compute are not modelled.
- Starter.DoTick: the hourly window is a parameter assumed filled, although the program as written never fills it (see `calculate_1h_records` above). With the empty global window the program reaches, the hourly step finds no period, and the NoHourly/Aggregated outcomes describe the path the code evidently intends.
- The `total_volume_k` keys of `aggregate_10h_volumes` are natural-number indices `k`; the text keys themselves are not modelled.
- The candle readers `calculate_10m_volumes_sidedWindow` (src/AnalyticsBot/analytic_utils.py:75), `calculate_1h_dynamic` (lines 243 and 246) and `update_10m_volumes` (src/AnalyticsBot/starter.py:45) read `quote_assets_volume` and `num_of_trades`. `CandleRecord` (src/AnalyticsBot/ramstorage/CandleRecord.py:5-27) has neither field, so as written each read raises AttributeError. The model reads the record's quote volume and trade count instead.
- Fetch.LatestCandle: states the intended candle. As written, the `CandleRecord(...)` call at src/AnalyticsBot/binance_utils/my_binance_utils.py:113-126 passes `close_time`, `quote_assets_volume` and `num_of_trades`, which the dataclass rejects with TypeError. Line 140 catches it, so every answer yields None (`Fetch.LatestCandleAsWritten`). The same holds for the history fetch at lines 264-277, caught at line 286.
- Candles.FromKline: states the candle the fetch layer means to build. As written no candle is built: `Fetch.ConstructAsWritten` fails on every kline, and `Fetch.ConstructAlwaysRaises` proves it.
- `float(...)` and `int(...)` of numeric text, including the trader bot's price strings in `get_price_from_list`. Values are given already parsed.
- Lenient `strptime` inputs (single-digit fields, other white space), and years below 1000, which glibc's `%Y` writes without padding. Only the canonical zero-padded layout of years 1000 to 9999 is modelled.
- Python's `re` `\d` also matches non-ASCII digits; the model accepts ASCII digits only.
- The strategy tester's 120-second wait for a K-line file and its file-stability wait. The files present are given as a map.
- The copier's modification time and the current second are parameters. The rows of `check_for_new_rows` come from a set, so their order is arbitrary in the code; the model takes the order as given.
- `os.listdir` order is taken as given.
- `print_comparison_results`, `get_max_leverage` and `open_new_positions`. These are console output and exchange SDK calls.
- The fetch layer's HTTP calls and their wiring. The model covers the pure steps: the rate limiter, the symbol filter, the end time, the status and close-time acceptance of the latest candle, the success filter and the transpose.
- Fetch.QueueBounded: the bound of at most `limit` stamps is stated for queues without a stamp exactly one window old, and for a sleep that outlasts the wait. `Fetch.RateLimitBoundary` shows that at either edge the code admits one request too many.
- KlineWindow.SaveKlinesKeepsNewestFirst: the newest-first order is stated only for a batch of one minute, and only when the window has an empty slot or the batch is newer than its oldest minute. `save_klines_to_ram` also accepts batches of several minutes, keys its checks on the unsorted first candle's open time, and stores the sorted batch. `KlineWindow.SaveOlderIntoFullWindow` shows that in the remaining case the code shifts twice and stores the newest minute in two slots.
- Values.CleanReal: Python's `clean_value` hands every non-NA value through unchanged. The typed fields cannot hold a string cell, so the model reads one as None. `Values.CleanInt` likewise reads a string or a fractional float as None.
- AlertRecords.FromDict: Python never checks the kind of ticker, volume or the optional cells. The typed record cannot hold a non-string ticker or volume, or a string in a number column, so the model returns None for such rows where Python would build a record carrying them.
- HoursRecords.FromDict: Python stores `symbol` unchecked. The typed record cannot hold a non-string symbol, so the model returns None for such a dict.
- AlertHistory.SaveAlert: the `except Exception` path of `save_alert_to_memory` returns False on an unexpected error. No modelled input raises, so that path is not represented.
- Calculator.UpdateAlertRecord: the 48-hour test at src/AnalyticsBot/calculator.py:25-29 compares naive local times (`datetime.fromtimestamp` against `datetime.now()`), so a daylight-saving change moves the boundary by the change of offset. The model compares epoch milliseconds against `now − 48 · 3600000` (`Calculator.IsRecent`).
- `src/AnalyticsBot/ramstorage/ram_storage_utils.py` sizes its windows with `MINUTE_CANDLES_LIMIT` (lines 13, 17 and 18), which `src/AnalyticsBot/config.py` does not define, so importing the module raises NameError. The model takes each window as a parameter of any length; the repository's minute-file limit is 60.
- `Volume_10m`, imported at src/AnalyticsBot/analytic_utils.py:17, is defined by no file of the repository, so that import fails. The model assumes the record the comment at lines 23-28 sketches: a ticker, its summed quote volume, an open time and a close time (`MinuteVolumes.Volume10m`).
- The `if not candle` test of `update_alert_record` is modelled as "no candle for the ticker"; a candle object is always truthy.

## Findings

| source | as written | input that shows it | evidently intended | confidence | as-written member | corrected member |
|---|---|---|---|---|---|---|
| src/AnalyticsBot/ramstorage/ram_storage_utils.py:50-75 | the alert is inserted inside the loop over the history slots, once per slot that does not hold the ticker | an empty two-slot history: `save_alert_to_memory` stores the alert twice in slot 0 | check every slot for the ticker first, then insert the alert once | not executed | AlertHistory.SaveAlertAsWrittenTwice | AlertHistory.SaveAlert |
| src/AnalyticsBot/binance_utils/my_binance_utils.py:113-126 | `CandleRecord(...)` is called with `close_time`, `quote_assets_volume` and `num_of_trades`, which are not fields of the dataclass; the TypeError is caught at line 140 and None returned | a 200 answer holding one kline that closed before the request: `fetch_ticker_1m_volumes` returns None | pass the dataclass's own fields (`quote_volume`, `trades`, no `close_time`) and return the candle | not executed | Fetch.LatestCandleAsWrittenLosesCandle | Fetch.LatestCandle |
