# Stock analysis tools: backtester and support/resistance zone finder

This project models the two numerical cores of a pair of Streamlit stock tools, and proves properties of them in Dafny.

**Threshold backtester** (`back_testing_tool.py`). The simulator walks the closing prices from the second bar on, starting with 10000 in cash.
- On each bar it first checks the buy rule. It buys one unit if it holds none and the close fell by at least `buy_drop` percent from the previous close.
- It then checks the sell rule on the same bar. It sells the unit if the close is at least `sell_gain` percent above the last buy price.
- It logs every trade. The final balance is the cash plus the last close for a unit still held.

The model has four parts:
- `BacktestModel` holds the per-bar rules as a state machine (`Run`, `Simulate`).
- `Backtester.Backtest` is the loop itself, proved to compute `Simulate`.
- `BacktestProperties` proves what the log means:
  - the trades alternate BUY, SELL, BUY, ...;
  - the accounts balance;
  - each trade happens at the first bar that meets its rule;
  - no later bar meets the rule of the next trade;
  - the log is the only one with those properties.

**Zone detector** (`support_finder_app.py`). The detector has three stages:
- `Volatility` computes the true range of every bar and its 14-bar rolling mean, the Average True Range (ATR). It also computes the mean of the defined ATR values.
- `Zones` computes the tolerance as that mean over the mean close. It then works in four steps:
  1. It scans the interior bars for strict local minima (support) or maxima (resistance) of the close.
  2. It counts each level in a dictionary and sorts the levels.
  3. It folds each level into the current zone unless it lies more than `level * tolerance` from that zone's level.
  4. It keeps the zones whose strength is at least `min_tests`. The source's comment calls this a minimum number of tests (`support_finder_app.py:101`), but the strength is not a touch count (see below).
- `ZoneFinder` holds the two entry points.

`ZoneProperties` proves:
- the shape of the zones: ascending and pairwise separated;
- coverage of every candidate;
- where the zone levels come from;
- a worked example.

Two behaviours of the code that a reader might not expect:

- **Zone strength.** The chart and the table label a zone's strength as its touches (`support_finder_app.py:157`, `:161`, `:173`, `:177`). But each occurrence of a level adds that level's whole dictionary count (`:87`, `:97`, `:99`). So a level touched k times adds k * k.
  - `ZoneProperties.UnfilteredStrengthIsSquareSum` proves that the strengths sum to the sum of the squared counts.
  - `ZoneProperties.WorkedExample` shows three touches of 9 giving strength 9.
  - `ZoneProperties.TwoTouchesPassMinimumThree` shows a level touched twice reaching strength 4, so `min_tests` = 3 keeps it.
- **ATR warm-up.** The rolling mean leaves only the first `period - 1` ATR entries undefined (`:65-69`). The row-wise maximum skips the undefined previous-close columns, so the true range of bar 0 is high - low.

## Model

| member | source | states |
|---|---|---|
| Volatility.TrueRange | support_finder_app.py:65-68 | the true range is at least high - low and, from bar 1 on, at least both distances of high and low from the previous close; it equals one of them; it is non-negative when high >= low |
| Volatility.TrueRanges | support_finder_app.py:68 | the true-range column has one entry per bar, entry i being the true range of bar i |
| Volatility.MeanBounds | support_finder_app.py:69 | a mean lies between any lower and any upper bound of its terms |
| Volatility.Atr | support_finder_app.py:69-70 | the ATR series is as long as the bars; entry i is defined exactly when i >= period - 1 and is then the mean true range of bars i - period + 1 .. i |
| Volatility.AtrWithinWindow | support_finder_app.py:69 | every defined ATR entry lies between any bounds of the true ranges in its window |
| Volatility.AtrNonNegative | support_finder_app.py:65-69 | with high >= low on every bar, every defined ATR entry is non-negative |
| Volatility.Defined | support_finder_app.py:75 | the values the mean averages are drawn from the defined entries of the series, and every defined value appears among them |
| Volatility.DefinedCount | support_finder_app.py:69-75 | for a series whose first u entries are undefined and the rest defined, the values averaged are entries u .. length - 1, each once and in order |
| Volatility.AverageAtr | support_finder_app.py:73-75 | the average ATR is defined exactly when there are at least `period` bars, and is then the mean of the window means ending at bars period - 1 .. length - 1 |
| Volatility.DefinedAtr | support_finder_app.py:69-75 | with at least `period` bars the defined ATR entries are the window means ending at bars period - 1 .. length - 1, in order |
| Volatility.AverageAtrBounds | support_finder_app.py:73-75 | a defined average ATR lies between any bounds of all the true ranges |
| Zones.CandidatesBefore | support_finder_app.py:83-86 | the scan over bars 1 .. k - 1 yields at most k levels |
| Zones.Insert | support_finder_app.py:92 | inserting into an ascending list gives an ascending list with the same elements plus the new one |
| Zones.Sort | support_finder_app.py:92 | sorting yields an ascending permutation of the levels |
| Zones.Group | support_finder_app.py:94-99 | grouping yields no more zones than levels, and at least one when there is a level |
| Zones.KeepStrong | support_finder_app.py:102 | a zone is kept exactly when it is among the zones and has strength >= min_tests |
| Zones.Tolerance | support_finder_app.py:79 | average ATR over mean close is non-negative for positive closes and a non-negative average |
| Zones.ZoneTolerance | support_finder_app.py:79 | the tolerance the detector uses is non-negative |
| Zones.Zip | support_finder_app.py:102 | zipping pairs level i with strength i, for every i |
| Zones.ScanLevels | support_finder_app.py:80-87 | the scan loop returns the candidate levels in bar order, and a dictionary that holds exactly those levels, each mapped to its number of occurrences |
| Zones.TallyAppend | support_finder_app.py:87 | `strength.get(level, 0) + 1` keeps the dictionary an exact occurrence count after appending the level |
| Zones.GroupLevels | support_finder_app.py:90-99 | the grouping loop's two parallel lists zip to the zones the fold produces |
| Zones.GroupLevelsStep | support_finder_app.py:95-99 | one iteration of the grouping loop (append a zone, or add to the last strength) extends the fold by one level |
| Zones.FindZones | support_finder_app.py:78-104 | the detector method returns exactly the specified zones: scan, sort, group with the ATR tolerance, filter |
| ZoneProperties.CandidatesIff | support_finder_app.py:83-86 | a level is a candidate exactly when it is the close of an interior bar that is a strict local minimum (support) or maximum (resistance) |
| ZoneProperties.CandidatesBeforeCount | support_finder_app.py:83-87 | among bars 1 .. k - 1, each reversal bar adds exactly one occurrence of its close to the level list |
| ZoneProperties.CandidatesCount | support_finder_app.py:83-87 | a level occurs in the candidate list exactly as many times as there are interior reversal bars closing at it |
| ZoneProperties.FlatOrShortSeriesHasNoZones | support_finder_app.py:83-104 | fewer than three bars, or a constant series, give no candidates and no zones |
| ZoneProperties.SortedMembers | support_finder_app.py:92 | every entry of the sorted list is one of the original levels |
| ZoneProperties.GroupShape | support_finder_app.py:94-99 | on ascending levels the zones ascend strictly and each lies more than level * tolerance above all earlier ones; the first zone is opened by the lowest level |
| ZoneProperties.GroupCovers | support_finder_app.py:94-99 | every level lies in some zone at or below it, within level * tolerance of that zone's level |
| ZoneProperties.GroupLevelsAreLevels | support_finder_app.py:95-99 | zone i keeps the level s[k] of the level that opened it: the levels before k make i zones, level k makes zone i + 1, and no later level moves it |
| ZoneProperties.GroupStrengthSum | support_finder_app.py:94-99 | the zone strengths sum to the sum, over every occurrence, of that level's count |
| ZoneProperties.GroupStrengthPositive | support_finder_app.py:94-99 | when every level has a positive count, every zone has strength >= 1 |
| ZoneProperties.GroupStrengthIsSquareSum | support_finder_app.py:87-99 | with the occurrence counts of the levels, the strengths sum to the sum of the squared counts of the distinct levels |
| ZoneProperties.KeepStrongShape | support_finder_app.py:102 | the filter keeps the ascending, separated shape of the zones |
| ZoneProperties.DetectedZonesShape | support_finder_app.py:78-104 | the detected zones are ascending and pairwise separated by more than level * tolerance; every zone has strength >= min_tests and >= 1, and a level that is a candidate close |
| ZoneProperties.UnfilteredStrengthIsSquareSum | support_finder_app.py:83-99 | before the filter, the strengths of one side sum to the sum of the squared occurrence counts of the candidate levels |
| ZoneProperties.CandidateCovered | support_finder_app.py:83-99 | every candidate close lies in a zone, before the filter, at or below it and within the tolerance |
| ZoneProperties.WorkedExample | support_finder_app.py:78-133 | for closes 10, 9, 10, 11, 9, 10, 12, 9, 10 with average ATR 0.5, the detector finds one support zone (9, strength 9), and the resistance zones (11, 1) and (12, 1), which min_tests = 3 removes |
| ZoneProperties.TwoTouchesPassMinimumThree | support_finder_app.py:83-102 | for closes 10, 9, 10, 9, 10 there are two reversal bars at 9, and with min_tests = 3 the detector keeps the zone (9, strength 4) |
| ZoneFinder.FindSupportZones | support_finder_app.py:78-104 | returns the support zones; they are separated, have strength at least min_tests, and sit at closes of local minima |
| ZoneFinder.FindResistanceZones | support_finder_app.py:107-133 | returns the resistance zones; they are separated, have strength at least min_tests, and sit at closes of local maxima |
| BacktestModel.Run | back_testing_tool.py:62-77 | after any prefix of the bars at most one unit is held, and a held unit has a known positive buy price |
| BacktestProperties.RunInvariant | back_testing_tool.py:57-77 | after bars 1 .. k - 1 the holdings are the parity of the log's length, the last buy price is the price of the last (BUY) trade, the cash is 10000 plus sales minus purchases, and the log is the greedy one |
| BacktestProperties.StepInvariant | back_testing_tool.py:62-77 | one bar of the loop keeps the accounts and the greedy log |
| BacktestProperties.LogStepGreedy | back_testing_tool.py:65-77 | logging the next trade when its rule fires (and a same-bar SELL after a BUY) keeps the log greedy |
| BacktestProperties.FlatRules | back_testing_tool.py:65-77 | when flat, the buy and sell rules log exactly the trades whose conditions fire and keep the accounts |
| BacktestProperties.HeldRules | back_testing_tool.py:72-77 | when holding, the sell rule logs a SELL exactly when the gain condition fires and keeps the accounts |
| BacktestProperties.Alternation | back_testing_tool.py:65-77 | the log alternates BUY, SELL, BUY, ..., starting with a BUY |
| BacktestProperties.BalanceAccounting | back_testing_tool.py:57-79 | the final balance is 10000 plus the sales minus the purchases, plus the last close when the log ends with a BUY |
| BacktestProperties.ShortSeriesNoTrades | back_testing_tool.py:57-79 | with fewer than two bars the log is empty and the final balance is exactly 10000 |
| BacktestProperties.TradeConditions | back_testing_tool.py:62-76 | each trade is at its bar's close; a BUY follows a drop of at least buy_drop percent; a SELL follows the BUY before it, on the same or a later bar, with a gain of at least sell_gain percent |
| BacktestProperties.BarsIncrease | back_testing_tool.py:65-76 | with a positive sell_gain each trade is on a strictly later bar than the one before it |
| BacktestProperties.NonPositiveSellGain | back_testing_tool.py:65-79 | with sell_gain <= 0 every BUY is sold on its own bar, the log ends flat and the final balance is exactly 10000 |
| BacktestProperties.GreedyLogIsUnique | back_testing_tool.py:62-77 | any log in which every trade happens at the first bar meeting its rule, with no unused opportunity after the last trade, is the log the backtest produces |
| Backtester.Backtest | back_testing_tool.py:56-80 | the loop returns the final balance and trade log of the specified state machine |

## Left out

- Streamlit widgets, charts, progress messages (`st.write`), and fetching the data from the market-data provider: these are I/O around the core.
- The trade date is modelled as the bar's position in the series. Date formatting is not modelled.
- The column names and the helper DataFrame columns (`High-Low`, `ATR`, ...) are storage only and are not modelled.
- Floating point: prices, percentages and means are exact reals. Rounding, and float equality of dictionary keys, are not modelled.
- The closes must be positive. The source divides by the previous close, by the buy price and by the mean close, and is undefined on zero prices.
- Zones.FindZones: the average ATR is a parameter (the source reads a module-level variable) and must be defined and non-negative. With fewer than 14 bars the source's average is NaN. Every tolerance comparison is then false, so the source folds all levels into the first zone. The detector here does not model that path.
- Zones.ZoneTolerance: for an empty series the tolerance is taken as 0. The source's mean close is NaN there, but no candidate exists, so the zones are the same.
- Volatility.Atr: the period must be at least 1. The source always uses 14.
- The bar's open price is carried but never used, as in the source.
- `list.sort()` is modelled by an insertion sort proved to give an ascending permutation. Equal levels are interchangeable, so the sort's stability does not matter.
