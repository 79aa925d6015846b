# Strategy backtester, modelled in Dafny

This project models the core of a small stock-strategy backtester. The
backtester is a FastAPI service. A client posts a strategy: a symbol, a date
range, a timeframe, a stop loss, and two lists of indicator conditions, one
for entry and one for exit. The service then:

1. fetches the price bars;
2. evaluates each condition list into a boolean column of a pandas frame
   (`apply_conditions`), under the label `entry_` and under the label `exit_`;
3. walks the bars once, opening and closing positions (`run_backtest`);
4. reports the trades and the sum of their percentages (`run_strategy`).

The model has these modules:

- `Operators`: the operator table `OPERATORS`. Its six symbols map to
  comparisons. A comparison with an undefined (NaN) cell is false, except
  under `!=`, where it is true.
- `Indicators`: one condition.
  - The indicator tag is a closed datatype, and the dispatch on it becomes an
    `Effect`: the columns it assigns plus its boolean series, or the
    exception it raises.
  - The indicator numbers are an abstract `Library` of per-bar `Option<real>`
    columns. `None` stands for a warm-up bar.
  - `Passes` states bar by bar what a well-formed condition means.
- `Frames`: the frame as a `Table` value (ordered, uniquely named columns)
  and as a `Frame` class whose `Put` method assigns a column in place.
- `Evaluator`: `apply_conditions`.
  - `ApplyConditions` and `ApplyCondition` are imperative methods on a
    `Frame`. `ApplyCondition` is proved to leave the frame exactly as the
    specification function `EvalCondition` prescribes for one condition,
    and `ApplyConditions` exactly as `EvalConditions` prescribes for the
    whole list.
  - Lemmas prove what the label column means.
- `Simulator`: `run_backtest`.
  - `RunBacktest` is the loop over bars. It is proved equal to the
    specification `Ledger`, which is a fold of `Step`.
  - `LedgerCharacterized` then describes the ledger without the loop. Each
    trade opens at the first entry signal after the previous exit, and closes
    at the first exit signal or stop-loss breach after that. Whatever is
    still open after the last bar is dropped. Exactly one list of trades
    fits that description.
- `Strategy`: `run_strategy` as a pure function.
  - The fetch is a function parameter, and dates are day numbers.
  - It covers the interval table, the 60-day intraday rule, the wiring of
    the two labels into the simulator, and the totals.
- `Text`, `Wrappers`: the string functions the column names need
  (`startswith`, `strip("_")`, `str` of an optional int), and `Option` and
  `Result`.

Prices and percentages are exact `real`s. Bar positions stand in for
timestamps.

Quirks of the code that the model keeps:

- A `!=` condition holds on every warm-up bar, because pandas compares NaN
  as unequal to everything. Every other operator is false there. `WarmUp`
  states this.
- The `getattr` defaults for period, fast and slow (14, 20, 50/200) never
  take effect. The condition fields always exist and are `None` when left
  out, so `getattr` returns `None`. Column names such as `RSI_None` are
  modelled that way.
- A condition's column name leaves out period, fast and slow. Two entry
  conditions that differ only there share one column, and the later one's
  series is what that column holds. `Evaluator.FoldKeeps` and
  `Strategy.ConditionInReason` require that no later condition shares the
  name.
- The entry reason lists the `entry_…` columns that are True on the entry
  bar itself, not on the signal bar before it. That includes the label
  column `entry_` when the signal also holds on the entry bar
  (`Strategy.Wiring`).

## Model

| member | source | states |
|---|---|---|
| Operators.Symbol | backtester.py:7-14 | looking up an operator's key finds that same operator |
| Operators.ParseOp | backtester.py:7-14 | the lookup succeeds iff the string is one of the six keys; any other string is the missing-key error |
| Operators.ParseSymbol | backtester.py:7-14 | whatever the lookup finds is stored under exactly the string looked up, so the table is a bijection between the six keys and the six comparisons |
| Operators.SymbolMeaning | backtester.py:7-14 | `>`, `<`, `>=`, `<=`, `==`, `!=` each select the comparison they spell |
| Operators.Holds | backtester.py:8-13 | one cell of a comparison, NaN included; what it means on undefined cells is stated by `UndefinedCells` |
| Operators.UndefinedCells | backtester.py:7-14 | with an undefined cell on either side (a NaN value, a NaN right-hand column or a missing threshold) every operator is false except `!=`; so `!=` negates `==` there but `>=` does not negate `<` |
| Text.TrimStart | backtester.py:139 | `lstrip("_")` yields a suffix of its input that does not start with `_`, and everything it removed is `_` |
| Text.TrimEnd | backtester.py:139 | `rstrip("_")` yields a prefix of its input that does not end with `_`, and everything it removed is `_` |
| Text.StripKeepsPrefix | backtester.py:139 | stripping `p + q` keeps all of `p` when `p` neither starts nor ends with `_` |
| Text.NatText | backtester.py:86-103 | `str(n)` is a non-empty string of decimal digits, one digit exactly when n < 10 |
| Text.NatTextInjective | backtester.py:86-103 | distinct numbers print differently |
| Text.OptionTextHead | backtester.py:86-103 | the first character of `str(p)` tells `None`, negative and non-negative apart |
| Text.OptionTextInjective | backtester.py:102-105 | distinct periods name distinct `EMA_…` columns, so the fast and slow columns coincide only when fast equals slow |
| Text.IntTextInjective | backtester.py:86-99 | distinct integer periods print differently, so distinct periods name distinct `RSI_…` and `EMA_…` columns |
| Frames.Table.Put | backtester.py:87-145 | `df[name] = col` stores `col` under `name` and leaves every other column alone; an existing name keeps its place, a new name goes last |
| Frames.PutValid | backtester.py:87-145 | assigning a column of the frame's length keeps names unique, names and columns in step, and every column the same length |
| Frames.PutAllValid | backtester.py:78-145 | any sequence of such assignments keeps the frame well formed |
| Frames.PutAllAppend | backtester.py:78-145 | two batches of assignments equal their concatenation |
| Frames.PutAllUntouched | backtester.py:78-145 | a column that no assignment names keeps its presence and contents |
| Frames.Frame.Put | backtester.py:87-145 | the in-place assignment changes the frame exactly as `Table.Put` prescribes and keeps it well formed |
| Indicators.Tag | backtester.py:83-129 | every indicator tag is non-empty and neither starts nor ends with `_` |
| Indicators.ParseIndicator | backtester.py:83-136 | the `if/elif` chain recognises exactly the six tags; any other string falls through to the final `else` |
| Indicators.ThresholdSeries | backtester.py:83-133 | `OPERATORS[op](column, value)`: fails with the missing-key error iff the operator is not one of the six keys; otherwise one cell per bar, each `Holds` of the operator on that bar's value and the threshold |
| Indicators.PairSeries | backtester.py:104-106 | `OPERATORS[op](fast, slow)`: the same error rule; otherwise cell k compares the fast and the slow average of bar k |
| Indicators.CrossSeries | backtester.py:121-126 | the cross branch succeeds iff the operator is `>` or `<`, and raises the cross error otherwise; what a cell means is stated by `CrossSeriesMeaning` |
| Indicators.CondName | backtester.py:139 | the condition's column name neither starts nor ends with `_`; its full shape is stated by `CondNameShape` |
| Indicators.CondNameShape | backtester.py:139 | for a label not starting with `_` and a threshold text not ending with `_`, the name is label, `__`, tag, `_`, operator, `_`, threshold text, with nothing stripped; period, fast and slow do not appear in it |
| Indicators.Shift | backtester.py:122-124 | `shift(1)` moves every cell one bar later and leaves bar 0 undefined |
| Indicators.IndicatorEffect | backtester.py:83-133 | every column a branch assigns, and its series, have one cell per bar |
| Indicators.EvalCondition | backtester.py:78-143 | one pass of the loop assigns only full-length columns, and its series has one cell per bar; that a well-formed pass ends by storing its series under `CondName` is stated by `ConditionMeaning` |
| Indicators.CrossSeriesMeaning | backtester.py:121-124 | `MACD_CROSS >` (or `<`) is true at bar k iff the line is strictly above (below) the signal at k and was level or below (above) at k-1, all four values defined; it is false at bar 0 |
| Indicators.ConditionMeaning | backtester.py:83-143 | a condition raises iff it is ill-formed: an unknown tag raises `Unsupported indicator` with no column written; a `MACD_CROSS` with an operator other than `>`/`<` raises the cross error; otherwise an unknown operator is the missing-key error. A well-formed condition is true at bar k iff `Passes`: threshold indicators compare their value with `value`, `EMA_CROSS` compares fast against slow on the same bar, `MACD_CROSS` asks for a crossing. The last column a well-formed pass assigns is its series under `CondName` |
| Indicators.ConditionDefined | backtester.py:83-136 | a pass yields a series, rather than raising, iff its condition is well formed |
| Indicators.WarmUp | backtester.py:88-143 | on a bar where the indicator is undefined a threshold condition holds iff its operator is `!=`; so does an `EMA_CROSS` where the fast or the slow average is undefined; a crossing never holds |
| Indicators.CrossFiresOnce | backtester.py:121-122 | a line that is level or below its signal before bar k and above it from k on makes `MACD_CROSS >` fire at k and nowhere else |
| Evaluator.Fold | backtester.py:76-143 | after any prefix of the conditions, every assigned column and the running signal have one cell per bar |
| Evaluator.EvalConditions | backtester.py:73-146 | the whole call assigns only full-length columns, and its signal has one cell per bar |
| Evaluator.ApplyIndicator | backtester.py:83-133 | the in-place dispatch assigns exactly the branch's indicator columns and returns the branch's series, or the exception it raises |
| Evaluator.ApplyCondition | backtester.py:79-140 | one pass of the loop changes the frame exactly as `EvalCondition` prescribes and returns its series or exception |
| Evaluator.ApplyConditions | backtester.py:73-146 | the loop leaves the frame with exactly the assignments `EvalConditions` lists, in order, and reports the exception if one was raised |
| Evaluator.FoldStopsAtError | backtester.py:121-136 | once a condition raises, later conditions are never evaluated |
| Evaluator.FoldMeaning | backtester.py:76-143 | the running signal exists iff every condition so far is well formed, and it is true at bar k iff every condition passes at k |
| Evaluator.FoldFailure | backtester.py:78-136 | when the loop raises, the exception is that of the first ill-formed condition |
| Evaluator.FailingCondition | backtester.py:78-136 | the same, naming the index: the loop's exception is that of a condition all of whose predecessors are well formed and which is not |
| Evaluator.FoldDefined | backtester.py:78-136 | the loop runs to its end without raising iff every condition is well formed |
| Evaluator.FailsAt | backtester.py:78-136 | the first ill-formed condition's exception is the loop's, whatever follows it |
| Evaluator.LabelColumn | backtester.py:76-145 | the label column exists iff every condition is well formed; it is the last column assigned, has one cell per bar, and is true at bar k iff every condition passes at k; with no conditions it is true everywhere |
| Evaluator.CondNamePrefix | backtester.py:139 | a condition's column name starts with the label, `__` and the indicator tag |
| Evaluator.IndicatorWrites | backtester.py:86-132 | the branches assign only `RSI_…`, `EMA_…`, `MACD_line`, `MACD_signal` and `MACD_hist` |
| Evaluator.StepStores | backtester.py:139-140 | a well-formed pass leaves its series under its own column name |
| Evaluator.StepAvoids | backtester.py:83-140 | a well-formed pass assigns only indicator columns and its own column |
| Evaluator.FoldKeeps | backtester.py:76-140 | after the loop, a condition's column holds that condition's series, unless a later condition has the same name |
| Evaluator.CondColumn | backtester.py:76-145 | when no condition raises, a condition whose name no later condition shares leaves a full-length boolean column, true at bar k iff that condition passes at k |
| Evaluator.FoldAvoids | backtester.py:78-143 | the loop never assigns a name that is neither an indicator column nor starts with the label and `__` |
| Evaluator.PassAvoids | backtester.py:83-140 | any pass, raising or not, assigns only indicator columns and columns whose names start with the label and `__` |
| Evaluator.NoLabelOnError | backtester.py:126-145 | a call that raises never writes the label column |
| Simulator.ReasonColumns | backtester.py:173-177 | the entry reason holds exactly the columns that start with `entry_` and whose cell on the entry bar equals True, in the frame's column order, and without repeats when the column names are distinct |
| Simulator.Reasons | backtester.py:173-177 | one entry reason per bar; the reason of bar i names exactly the `entry_` columns whose cell at bar i equals True |
| Simulator.ReasonsAgree | backtester.py:173-177 | the entry reasons read only the `entry_` columns: frames with the same `entry_` names in the same order and the same contents give the same reasons |
| Simulator.ChangePct | backtester.py:183 | the percentage move from the entry price: the entry price raised by that percentage gives back the current price |
| Simulator.Step | backtester.py:168-209 | one bar: trades are only appended, at most one per bar; when flat, a position opens iff the entry signal fired on the previous bar; when holding, an exit signal on the previous bar closes the position as "Exit Signal"; an appended trade closes the held position at this bar's open |
| Simulator.Ledger | backtester.py:150-211 | the fold of `Step` over bars 1..N-1; described without the loop by `LedgerCharacterized` |
| Simulator.Run | backtester.py:163-171 | while the loop holds a position, it was opened at an earlier bar, at that bar's open price |
| Simulator.SessionOf | backtester.py:164-182 | the simulator's input has one cell per bar in every column, and the reason of bar i names exactly the `entry_` columns true at i |
| Simulator.SessionAgrees | backtester.py:150-211 | `run_backtest` reads only the open prices, the entry and exit columns and the `entry_` columns: frames that agree on those give it the same input, hence the same trades |
| Simulator.RunBacktest | backtester.py:150-211 | the imperative loop returns exactly `Ledger` of the frame's columns |
| Simulator.StepReached | backtester.py:163-209 | each pass of the loop keeps the invariant that the trades so far are explained and the open position, if any, is the first entry after the last exit, not yet triggered |
| Simulator.RunReached | backtester.py:163-209 | the invariant holds after every bar |
| Simulator.LedgerExplained | backtester.py:163-211 | each trade opens at the first entry signal after the previous exit and closes at the first trigger after that; what follows the last trade never closes |
| Simulator.ExplainedUnique | backtester.py:163-211 | only one list of trades is explained that way |
| Simulator.LedgerCharacterized | backtester.py:163-211 | a list is the ledger iff every trade follows its predecessor as above and after the last trade no position closes |
| Simulator.LedgerTrades | backtester.py:168-204 | each trade opens at bar e after an entry signal on e-1, at open[e], with the reason computed on bar e. It closes at the first later bar x where the exit signal fired on x-1 or the loss reached the stop, at open[x], with pnl (open[x]-open[e])/open[e]·100. The reason is "Exit Signal" iff the exit signal fired, which wins over the stop. A "Stop Loss" trade has pnl <= -stop |
| Simulator.LedgerOrdered | backtester.py:163-209 | each trade exits before the next one enters, and a non-empty ledger of t trades needs at least 2t+1 bars, so at most (N-1)/2 trades |
| Simulator.ExitsSpread | backtester.py:163-209 | the k-th trade closes no earlier than bar 2k+2 |
| Simulator.NoEntryNoTrades | backtester.py:168 | without an entry signal the ledger is empty |
| Simulator.StopLossExample | backtester.py:163-211 | opens 100, 102, 104, 90, 95 with one entry signal and a 5% stop give one Stop Loss trade from bar 1 at 102 to bar 3 at 90 |
| Simulator.ExitSignalFirstExample | backtester.py:188-194 | an exit signal on the bar before a bar that also breaches the stop is reported as "Exit Signal" |
| Simulator.OpenPositionDroppedExample | backtester.py:196-211 | a position still open after the last bar is not reported |
| Strategy.IntervalFor | main.py:21-30 | the interval is one of `60m`, `30m`, `15m`, `1d`: the table's entry for a known timeframe, `1d` otherwise |
| Strategy.IntervalTable | main.py:21-30 | `1h` maps to `60m`; `30m`, `15m` and `1d` map to themselves; anything else maps to `1d`; the interval is intraday iff the timeframe is `1h`, `30m` or `15m` |
| Strategy.RangeRejected | main.py:36-38 | the intraday range test; its meaning, exactly-60-days-accepted included, is stated by `RangeRule` |
| Strategy.RangeRule | main.py:36-42 | an intraday request is refused iff it reaches back more than 60 days; exactly 60 days is accepted; a daily request is never refused |
| Strategy.RunStrategy | main.py:28-67 | the answer is the 400 refusal iff the intraday range check fails; a report's trade count is the ledger length and its total the sum of the trades' percentages |
| Strategy.RejectedBeforeFetch | main.py:36-45 | a refused request is answered the same whatever the data source would return |
| Strategy.Backtest | main.py:45-67 | the part after the fetch never refuses, and its report counts and sums its trades |
| Strategy.Columns | main.py:51-58 | after both evaluations the frame is well formed and holds the entry signal under `entry_` and the exit signal under `exit_` |
| Strategy.ExitKeepsEntry | main.py:54-55 | evaluating the exit conditions leaves the `entry_` column untouched |
| Strategy.ExitKeeps | main.py:54-55 | evaluating the exit conditions leaves untouched every column that is neither an indicator column nor `exit_` or `exit___…` |
| Strategy.CondColumnFinal | main.py:51-58 | in the final frame an entry condition's column, when no later entry condition shares its name, is true at bar k iff that condition passes at k |
| Strategy.LabelStored | backtester.py:145 | a call that does not raise leaves its signal under its label |
| Strategy.Wiring | main.py:51-66 | with well-formed conditions the report is the ledger over the signals `apply_conditions` computed under `entry_` and `exit_`, with its length and the sum of its percentages; each entry reason is the final frame's at the entry bar, and contains `entry_` iff the entry signal holds on that bar |
| Strategy.BacktestWiring | main.py:51-66 | the same as `Wiring`, for the part after the fetch |
| Strategy.BacktestReasons | main.py:51-66 | with well-formed conditions, a trade's entry reason names an entry condition's column iff that condition passes on the entry bar (when no later entry condition shares the name) |
| Strategy.ConditionInReason | main.py:28-67 | the same for the whole endpoint: each reported trade's reason lists exactly the entry conditions that held on its entry bar, by their column names |
| Strategy.FailureRule | main.py:54-55 | a request that is not refused fails iff some condition is ill-formed; the error is the first ill-formed entry condition's, or, when all entry conditions are well formed, the first ill-formed exit condition's; otherwise it is a report |
| Strategy.TotalPnl | main.py:61 | the sum of the trades' percentages; its properties are stated by `TotalPnlAppend`, `TotalPnlSingle` and `TotalPnlBound` |
| Strategy.TotalPnlAppend | main.py:61 | the total is additive over the trades: a plain sum, not compounded |
| Strategy.TotalPnlSingle | main.py:61 | a single trade contributes its own percentage |
| Strategy.TotalPnlBound | main.py:61 | if no trade gained more than b, the total is at most b per trade |
| Strategy.StopLossTotal | main.py:61 | a ledger made only of Stop Loss exits totals at most minus the stop loss times the trade count |

## Left out

- Fetching data (`fetch_data`, backtester.py:18-28) is network I/O. `RunStrategy` takes it as a function parameter returning the bars.
- Indicator numbers are left out. The RSI, EMA and MACD values from the technical-analysis library are abstract per-bar columns (`Library`), with `None` for bars that have no value. What the library does with a `None` period or with too few bars is not modelled.
- `round(…, 2)` of prices, percentages and the total is left out (backtester.py:200-202, main.py:65). All values are exact reals. As a result, the total here sums unrounded percentages.
- Timestamps are bar positions. The rendering of `str(df.index[i])` is left out.
- The entry reason is modelled as the list of column names. The text `name=True, …` it is joined into is not produced.
- The text of a threshold, for example `30` or `30.0`, is carried with the threshold. Python's float printing is not modelled.
- The FastAPI application, the CORS middleware and the `HTTPException` mechanics are left out (main.py:10-19). A refusal is the value `Rejected(400, interval)`. The message text is not modelled.
- `strptime` parsing of the dates is left out (main.py:33-34). Dates are day numbers, and a malformed date (a ValueError) is not modelled.
- The pandas column flattening and the lookup of the `Open`/`Close` columns are left out (main.py:47-49).
  - The bars arrive as their open prices and as indicator columns already computed over the closes.
  - The frame starts with no derived columns. The price columns do not start with `entry_`, so they never reach an entry reason.
- `Simulator.Session.WellFormed` requires every open price to be non-zero. Only an entry bar's open is ever a divisor (backtester.py:183). The price comes from `df.iloc[i]`, so it is a NumPy float. A zero entry price therefore gives an infinite or NaN percentage with a RuntimeWarning, not an exception. That percentage never reaches the stop, so such a position would close only on an exit signal. The model excludes zero opens on every bar, because real price bars never have a zero price.
- The conversion of the label columns with `fillna(False).astype(bool)` (main.py:57-58) is left out. The label columns `apply_conditions` writes are already boolean with no missing cell, so the conversion changes nothing.
- `Strategy.RunStrategy` accepts any timeframe string, as `run_strategy` does. The request schema's restriction to four timeframes (models.py:18) is left out. So is the rest of models.py: it holds only declarations, and its `Trade` and `StrategyResponse` classes are unused.
- The commented-out earlier `fetch_data` and `run_backtest` (backtester.py:29-35, 212-267) are dead code and are not modelled.
- The `print` calls of `fetch_data` are left out.
- Strategy.ConditionInReason: says nothing about an entry condition whose column name a later entry condition shares. That column holds the later condition's series, so the reason reflects the later one.
