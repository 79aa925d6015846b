/**
 * `run_strategy` of main.py, the `/backtest` endpoint: map the timeframe to
 * a provider interval, refuse intraday ranges longer than the provider
 * keeps, fetch the bars, evaluate the entry conditions under the label
 * "entry_" and the exit conditions under "exit_", run the simulator on
 * those two columns and add up the result.
 */
module Strategy {
  import opened Wrappers
  import opened Text
  import opened Frames
  import opened Indicators
  import opened Evaluator
  import opened Simulator

  /** `INTERVAL_MAP`: request timeframes and the provider intervals they stand for. */
  const IntervalMap: map<string, string> := map["1h" := "60m", "30m" := "30m", "15m" := "15m", "1d" := "1d"]

  /** The labels the endpoint gives the two signals. */
  const EntryLabel: string := "entry_"
  const ExitLabel: string := "exit_"

  /** `INTERVAL_MAP.get(timeframe, "1d")`. */
  function IntervalFor(timeframe: string): (interval: string)
    ensures interval in {"60m", "30m", "15m", "1d"}
    ensures timeframe in IntervalMap ==> interval == IntervalMap[timeframe]
    ensures timeframe !in IntervalMap ==> interval == "1d"
  {
    if timeframe in IntervalMap then IntervalMap[timeframe] else "1d"
  }

  /** The intervals for which the provider keeps only the last 60 days. */
  predicate Intraday(interval: string)
  {
    interval in ["15m", "30m", "60m"]
  }

  /** `from_dt < to_dt - timedelta(days=60)` for an intraday interval; dates are day numbers. */
  predicate RangeRejected(interval: string, from: int, to: int)
  {
    Intraday(interval) && from < to - 60
  }

  /** The request body: symbol, conditions, stop loss in percent, timeframe and date range. */
  datatype Request = Request(
    symbol: string,
    entry: seq<Condition>,
    exit: seq<Condition>,
    stopLoss: real,
    timeframe: string,
    from: int,
    to: int)

  /** The bars the provider returns: their open prices and the indicator columns over their closes. */
  datatype Market = Market(open: seq<real>, indicators: Library)
  {
    ghost predicate Valid()
    {
      indicators.Aligned(|open|) && forall i :: 0 <= i < |open| ==> open[i] != 0.0
    }
  }

  /** What the endpoint answers: the 400 refusal, an exception from the evaluator, or the report. */
  datatype Response =
    | Rejected(status: nat, interval: string)
    | Failed(error: Error)
    | Report(totalTrades: nat, totalPnlPct: real, trades: seq<Trade>)

  /** `sum([t['pnl_pct'] for t in trades])`. */
  function TotalPnl(trades: seq<Trade>): real
    decreases |trades|
  {
    if trades == [] then 0.0 else TotalPnl(trades[..|trades| - 1]) + trades[|trades| - 1].pnlPct
  }

  /** The frame after both calls of `apply_conditions`, when neither raised. */
  function Columns(entry: seq<Condition>, exit: seq<Condition>, m: Market): (t: Table)
    requires m.Valid()
    requires EvalConditions(entry, EntryLabel, m.indicators, |m.open|).series.Ok?
    requires EvalConditions(exit, ExitLabel, m.indicators, |m.open|).series.Ok?
    ensures t.Valid(|m.open|) && Stored(t)
    ensures EntryLabel in t.cols && t.cols[EntryLabel] == Flags(EvalConditions(entry, EntryLabel, m.indicators, |m.open|).series.value)
    ensures ExitLabel in t.cols && t.cols[ExitLabel] == Flags(EvalConditions(exit, ExitLabel, m.indicators, |m.open|).series.value)
  {
    var n := |m.open|;
    var t0 := Table([], map[]);
    LabelStored(entry, EntryLabel, m.indicators, n, t0);
    var t1 := t0.PutAll(EvalConditions(entry, EntryLabel, m.indicators, n).writes);
    LabelStored(exit, ExitLabel, m.indicators, n, t1);
    ExitKeepsEntry(exit, m.indicators, n, t1);
    var t2 := t1.PutAll(EvalConditions(exit, ExitLabel, m.indicators, n).writes);
    ValidStored(t2, n);
    t2
  }

  /** The two calls of `apply_conditions`, `run_backtest` on their labels, and the totals. */
  function Backtest(entry: seq<Condition>, exit: seq<Condition>, stopLoss: real, m: Market): (r: Response)
    requires m.Valid()
    ensures !r.Rejected?
    ensures r.Report? ==> r.totalTrades == |r.trades| && r.totalPnlPct == TotalPnl(r.trades)
  {
    var n := |m.open|;
    var e1 := EvalConditions(entry, EntryLabel, m.indicators, n);
    if e1.series.Err? then Failed(e1.series.error)
    else
      var e2 := EvalConditions(exit, ExitLabel, m.indicators, n);
      if e2.series.Err? then Failed(e2.series.error)
      else
        var t := Columns(entry, exit, m);
        var s := Session(m.open, t.cols[EntryLabel].bits, t.cols[ExitLabel].bits, Reasons(t, n));
        var trades := Ledger(s, stopLoss);
        Report(|trades|, TotalPnl(trades), trades)
  }

  /** `run_strategy`; `fetch` stands for `fetch_data` and is only consulted when the range is accepted. */
  function RunStrategy(req: Request, fetch: (string, int, int, string) -> Market): (r: Response)
    requires var interval := IntervalFor(req.timeframe);
      !RangeRejected(interval, req.from, req.to) ==> fetch(req.symbol, req.from, req.to, interval).Valid()
    ensures r.Rejected? <==> RangeRejected(IntervalFor(req.timeframe), req.from, req.to)
    ensures r.Rejected? ==> r.status == 400 && Intraday(r.interval)
    ensures r.Report? ==> r.totalTrades == |r.trades| && r.totalPnlPct == TotalPnl(r.trades)
  {
    var interval := IntervalFor(req.timeframe);
    if RangeRejected(interval, req.from, req.to) then Rejected(400, interval)
    else Backtest(req.entry, req.exit, req.stopLoss, fetch(req.symbol, req.from, req.to, interval))
  }

  // ---------------------------------------------------------------------
  // Helpers about the frame
  // ---------------------------------------------------------------------

  /** The last assignment of a list is what its column holds afterwards. */
  lemma LastWriteStored(t: Table, ws: seq<Write>)
    requires ws != []
    ensures ws[|ws| - 1].name in t.PutAll(ws).cols
    ensures t.PutAll(ws).cols[ws[|ws| - 1].name] == ws[|ws| - 1].column
  {
  }

  /** A well-formed frame stores a column for each of its names. */
  lemma ValidStored(t: Table, n: nat)
    requires t.Valid(n)
    ensures Stored(t)
  {
    forall k | 0 <= k < |t.names| ensures t.names[k] in t.cols {
      assert t.names[k] in t.names;
    }
  }

  /** A call of `apply_conditions` that does not raise leaves its signal under its label. */
  lemma LabelStored(conds: seq<Condition>, labelName: string, lib: Library, n: nat, t: Table)
    requires lib.Aligned(n) && t.Valid(n)
    requires EvalConditions(conds, labelName, lib, n).series.Ok?
    ensures var e := EvalConditions(conds, labelName, lib, n);
      && t.PutAll(e.writes).Valid(n)
      && labelName in t.PutAll(e.writes).cols
      && t.PutAll(e.writes).cols[labelName] == Flags(e.series.value)
  {
    var e := EvalConditions(conds, labelName, lib, n);
    LabelColumn(conds, labelName, lib, n);
    PutAllValid(t, e.writes, n);
    LastWriteStored(t, e.writes);
  }

  /** "entry_" is neither an indicator column nor a column of the exit conditions. */
  lemma LabelNames()
    ensures GoodLabel(ExitLabel) && !IndicatorColumnName(EntryLabel)
    ensures !StartsWith(EntryLabel, ExitLabel + "__") && EntryLabel != ExitLabel
  {
    assert EntryLabel[1] != (ExitLabel + "__")[1];
    assert EntryLabel[..4] != "RSI_" && EntryLabel[..4] != "EMA_";
  }

  /** Evaluating the exit conditions leaves the "entry_" column as it was. */
  lemma ExitKeepsEntry(exit: seq<Condition>, lib: Library, n: nat, t: Table)
    requires lib.Aligned(n)
    requires EvalConditions(exit, ExitLabel, lib, n).series.Ok?
    ensures var ws := EvalConditions(exit, ExitLabel, lib, n).writes;
      && (EntryLabel in t.PutAll(ws).cols <==> EntryLabel in t.cols)
      && (EntryLabel in t.cols ==> t.PutAll(ws).cols[EntryLabel] == t.cols[EntryLabel])
  {
    LabelNames();
    ExitKeeps(exit, lib, n, t, EntryLabel);
  }

  /** Evaluating the exit conditions leaves alone every column that is neither an indicator's nor an exit column. */
  lemma ExitKeeps(exit: seq<Condition>, lib: Library, n: nat, t: Table, name: string)
    requires lib.Aligned(n)
    requires EvalConditions(exit, ExitLabel, lib, n).series.Ok?
    requires !IndicatorColumnName(name) && !StartsWith(name, ExitLabel + "__") && name != ExitLabel
    ensures var ws := EvalConditions(exit, ExitLabel, lib, n).writes;
      && (name in t.PutAll(ws).cols <==> name in t.cols)
      && (name in t.cols ==> t.PutAll(ws).cols[name] == t.cols[name])
  {
    var f := Fold(exit, ExitLabel, lib, n);
    var ws := EvalConditions(exit, ExitLabel, lib, n).writes;
    LabelNames();
    FoldAvoids(exit, ExitLabel, lib, n, name);
    assert ws == f.writes + [Write(ExitLabel, Flags(f.series.value))];
    forall k | 0 <= k < |ws| ensures ws[k].name != name {
      if k < |f.writes| {
        assert ws[k] == f.writes[k];
      }
    }
    PutAllUntouched(t, ws, name);
  }

  // ---------------------------------------------------------------------
  // Properties
  // ---------------------------------------------------------------------

  /** The interval table: "1h" is "60m", the other keys map to themselves, anything else is daily. */
  lemma IntervalTable(timeframe: string)
    ensures IntervalFor("1h") == "60m"
    ensures IntervalFor("30m") == "30m" && IntervalFor("15m") == "15m" && IntervalFor("1d") == "1d"
    ensures timeframe !in {"1h", "30m", "15m", "1d"} ==> IntervalFor(timeframe) == "1d"
    ensures Intraday(IntervalFor(timeframe)) <==> timeframe in {"1h", "30m", "15m"}
  {
    assert "1h" in IntervalMap && "30m" in IntervalMap && "15m" in IntervalMap && "1d" in IntervalMap;
    assert IntervalMap.Keys == {"1h", "30m", "15m", "1d"};
    assert "1d" != "15m" && "1d" != "30m" && "1d" != "60m";
  }

  /**
   * The range check: an intraday request is refused exactly when it reaches
   * back more than 60 days (60 days exactly is accepted); a daily request
   * never is.
   */
  lemma RangeRule(interval: string, from: int, to: int)
    ensures Intraday(interval) ==> (RangeRejected(interval, from, to) <==> to - from > 60)
    ensures Intraday(interval) && to - from == 60 ==> !RangeRejected(interval, from, to)
    ensures !Intraday(interval) ==> !RangeRejected(interval, from, to)
    ensures !RangeRejected("1d", from, to)
  {
    assert !Intraday("1d") by {
      assert "1d" != "15m" && "1d" != "30m" && "1d" != "60m";
    }
  }

  /** A refused request is answered before any data is fetched: the answer does not depend on the data. */
  lemma RejectedBeforeFetch(req: Request, f: (string, int, int, string) -> Market, g: (string, int, int, string) -> Market)
    requires RangeRejected(IntervalFor(req.timeframe), req.from, req.to)
    ensures RunStrategy(req, f) == RunStrategy(req, g) == Rejected(400, IntervalFor(req.timeframe))
  {
  }

  /** The total is additive over the trades: a plain sum, not compounded. */
  lemma {:induction false} TotalPnlAppend(a: seq<Trade>, b: seq<Trade>)
    ensures TotalPnl(a + b) == TotalPnl(a) + TotalPnl(b)
    decreases |b|
  {
    if b == [] {
      assert a + b == a;
    } else {
      TotalPnlAppend(a, b[..|b| - 1]);
      assert (a + b)[..|a + b| - 1] == a + b[..|b| - 1];
    }
  }

  /** Each trade contributes its own percentage. */
  lemma TotalPnlSingle(tr: Trade)
    ensures TotalPnl([tr]) == tr.pnlPct
  {
    assert [tr][..0] == [];
  }

  /** If no trade gained more than `bound`, the total is at most `bound` per trade. */
  lemma {:induction false} TotalPnlBound(trades: seq<Trade>, bound: real)
    requires forall tr :: tr in trades ==> tr.pnlPct <= bound
    ensures TotalPnl(trades) <= bound * |trades| as real
    decreases |trades|
  {
    if trades != [] {
      var init := trades[..|trades| - 1];
      assert forall tr :: tr in init ==> tr in trades;
      TotalPnlBound(init, bound);
      assert trades[|trades| - 1] in trades;
      assert TotalPnl(trades) == TotalPnl(init) + trades[|trades| - 1].pnlPct;
      assert bound * |trades| as real == bound * |init| as real + bound;
    }
  }

  /** A ledger made of stop-loss exits only totals at most minus the stop loss per trade. */
  lemma StopLossTotal(s: Session, stopLossPct: real)
    requires s.WellFormed()
    requires forall tr :: tr in Ledger(s, stopLossPct) ==> tr.exitReason == StopLoss
    ensures TotalPnl(Ledger(s, stopLossPct)) <= -stopLossPct * |Ledger(s, stopLossPct)| as real
  {
    StopLossTrades(s, stopLossPct);
    TotalPnlBound(Ledger(s, stopLossPct), -stopLossPct);
  }

  /** Every trade closed by the stop loss lost at least the stop loss. */
  lemma StopLossTrades(s: Session, stopLossPct: real)
    requires s.WellFormed()
    requires forall tr :: tr in Ledger(s, stopLossPct) ==> tr.exitReason == StopLoss
    ensures forall tr :: tr in Ledger(s, stopLossPct) ==> tr.pnlPct <= -stopLossPct
  {
    LedgerTrades(s, stopLossPct);
    forall tr | tr in Ledger(s, stopLossPct) ensures tr.pnlPct <= -stopLossPct {
      assert ObeysRules(s, stopLossPct, tr);
    }
  }

  /** "entry_" is in the entry reason of a row exactly when the entry signal holds on that row. */
  lemma EntryLabelInReason(t: Table, bits: seq<bool>, i: nat)
    requires Stored(t) && EntryLabel in t.names && EntryLabel in t.cols && t.cols[EntryLabel] == Flags(bits)
    requires i < |bits|
    ensures EntryLabel in EntryReason(t, i) <==> bits[i]
  {
    assert StartsWith(EntryLabel, "entry_");
  }

  /** `Wiring` for the part of the endpoint after the fetch. */
  lemma {:induction false} BacktestWiring(entry: seq<Condition>, exit: seq<Condition>, stopLoss: real, m: Market)
    requires m.Valid() && AllWellFormed(entry) && AllWellFormed(exit)
    ensures var n := |m.open|;
      var entrySignal := EvalConditions(entry, EntryLabel, m.indicators, n).series;
      var exitSignal := EvalConditions(exit, ExitLabel, m.indicators, n).series;
      && entrySignal.Ok? && exitSignal.Ok?
      && var t := Columns(entry, exit, m);
         var s := Session(m.open, entrySignal.value, exitSignal.value, Reasons(t, n));
         && s.WellFormed()
         && Backtest(entry, exit, stopLoss, m) == Report(|Ledger(s, stopLoss)|, TotalPnl(Ledger(s, stopLoss)), Ledger(s, stopLoss))
         && forall tr :: tr in Ledger(s, stopLoss) ==>
              tr.entryIndex < n
              && tr.entryReason == EntryReason(t, tr.entryIndex)
              && (EntryLabel in tr.entryReason <==> entrySignal.value[tr.entryIndex])
  {
    var n := |m.open|;
    LabelColumn(entry, EntryLabel, m.indicators, n);
    LabelColumn(exit, ExitLabel, m.indicators, n);
    var entrySignal := EvalConditions(entry, EntryLabel, m.indicators, n).series;
    var exitSignal := EvalConditions(exit, ExitLabel, m.indicators, n).series;
    var t := Columns(entry, exit, m);
    var s := Session(m.open, entrySignal.value, exitSignal.value, Reasons(t, n));
    assert s.WellFormed();
    LedgerTrades(s, stopLoss);
    assert EntryLabel in t.names;
    forall tr | tr in Ledger(s, stopLoss)
      ensures tr.entryIndex < n && tr.entryReason == EntryReason(t, tr.entryIndex)
      ensures EntryLabel in tr.entryReason <==> entrySignal.value[tr.entryIndex]
    {
      assert ObeysRules(s, stopLoss, tr);
      EntryLabelInReason(t, entrySignal.value, tr.entryIndex);
    }
  }

  /**
   * The wiring of `run_strategy`: when neither list of conditions raises, the
   * report is the simulator's ledger over the "entry_" and "exit_" columns
   * exactly as the evaluator computed them, with each trade's entry reason
   * taken from the final frame at the entry bar; "entry_" itself appears in
   * that reason exactly when the entry signal also holds on the entry bar.
   */
  lemma Wiring(req: Request, fetch: (string, int, int, string) -> Market)
    requires var interval := IntervalFor(req.timeframe);
      !RangeRejected(interval, req.from, req.to) ==> fetch(req.symbol, req.from, req.to, interval).Valid()
    requires !RangeRejected(IntervalFor(req.timeframe), req.from, req.to)
    requires AllWellFormed(req.entry) && AllWellFormed(req.exit)
    ensures var m := fetch(req.symbol, req.from, req.to, IntervalFor(req.timeframe));
      var n := |m.open|;
      var entrySignal := EvalConditions(req.entry, EntryLabel, m.indicators, n).series;
      var exitSignal := EvalConditions(req.exit, ExitLabel, m.indicators, n).series;
      && entrySignal.Ok? && exitSignal.Ok?
      && var t := Columns(req.entry, req.exit, m);
         var s := Session(m.open, entrySignal.value, exitSignal.value, Reasons(t, n));
         && s.WellFormed()
         && RunStrategy(req, fetch) == Report(|Ledger(s, req.stopLoss)|, TotalPnl(Ledger(s, req.stopLoss)), Ledger(s, req.stopLoss))
         && forall tr :: tr in Ledger(s, req.stopLoss) ==>
              tr.entryIndex < n
              && tr.entryReason == EntryReason(t, tr.entryIndex)
              && (EntryLabel in tr.entryReason <==> entrySignal.value[tr.entryIndex])
  {
    var m := fetch(req.symbol, req.from, req.to, IntervalFor(req.timeframe));
    BacktestWiring(req.entry, req.exit, req.stopLoss, m);
  }

  /**
   * The entry reason of a trade names an entry condition's own column
   * exactly when that condition passes on the trade's entry bar, provided
   * no later entry condition has the same column name.
   */
  lemma BacktestReasons(entry: seq<Condition>, exit: seq<Condition>, stopLoss: real, m: Market, j: nat)
    requires m.Valid() && AllWellFormed(entry) && AllWellFormed(exit) && j < |entry|
    requires forall k :: j < k < |entry| ==> CondName(EntryLabel, entry[k]) != CondName(EntryLabel, entry[j])
    ensures var r := Backtest(entry, exit, stopLoss, m);
      && r.Report?
      && forall tr :: tr in r.trades ==>
           tr.entryIndex < |m.open|
           && (CondName(EntryLabel, entry[j]) in tr.entryReason <==> Passes(entry[j], m.indicators, |m.open|, tr.entryIndex))
  {
    var n := |m.open|;
    var name := CondName(EntryLabel, entry[j]);
    BacktestWiring(entry, exit, stopLoss, m);
    EntryCondName(entry[j]);
    CondColumnFinal(entry, exit, m, j);
    var t := Columns(entry, exit, m);
    var entrySignal := EvalConditions(entry, EntryLabel, m.indicators, n).series;
    var exitSignal := EvalConditions(exit, ExitLabel, m.indicators, n).series;
    var s := Session(m.open, entrySignal.value, exitSignal.value, Reasons(t, n));
    forall tr | tr in Ledger(s, stopLoss)
      ensures name in tr.entryReason <==> Passes(entry[j], m.indicators, n, tr.entryIndex)
    {
      assert tr.entryReason == EntryReason(t, tr.entryIndex);
    }
  }

  /** An entry condition's column starts with "entry_" and is neither an indicator column nor an exit column. */
  lemma EntryCondName(c: Condition)
    requires ParseIndicator(c.indicator).Some?
    ensures var name := CondName(EntryLabel, c);
      && StartsWith(name, "entry_") && !IndicatorColumnName(name)
      && !StartsWith(name, ExitLabel + "__") && name != ExitLabel
  {
    CondNamePrefix(EntryLabel, c);
    EntryPrefixed(CondName(EntryLabel, c));
  }

  /** A name that starts with "entry___" is an entry column and nothing else. */
  lemma EntryPrefixed(name: string)
    requires StartsWith(name, EntryLabel + "__")
    ensures StartsWith(name, "entry_") && !IndicatorColumnName(name)
    ensures !StartsWith(name, ExitLabel + "__") && name != ExitLabel
  {
    assert name[..|EntryLabel + "__"|] == EntryLabel + "__";
    assert name[0] == 'e' && name[1] == 'n';
    assert StartsWith(name, "entry_") by {
      assert name[..6] == (EntryLabel + "__")[..6];
    }
    assert !IndicatorColumnName(name) by {
      assert name[..4] != "RSI_" && name[..4] != "EMA_";
    }
    assert !StartsWith(name, ExitLabel + "__") by {
      assert name[1] != (ExitLabel + "__")[1];
    }
    assert name != ExitLabel by {
      assert name[1] != ExitLabel[1];
    }
  }

  /** In the final frame an entry condition's column holds where that condition passes. */
  lemma CondColumnFinal(entry: seq<Condition>, exit: seq<Condition>, m: Market, j: nat)
    requires m.Valid() && AllWellFormed(entry) && AllWellFormed(exit) && j < |entry|
    requires forall k :: j < k < |entry| ==> CondName(EntryLabel, entry[k]) != CondName(EntryLabel, entry[j])
    ensures var n := |m.open|;
      && EvalConditions(entry, EntryLabel, m.indicators, n).series.Ok?
      && EvalConditions(exit, ExitLabel, m.indicators, n).series.Ok?
      && var t := Columns(entry, exit, m);
         var name := CondName(EntryLabel, entry[j]);
         && name in t.names && name in t.cols && t.cols[name].Flags? && |t.cols[name].bits| == n
         && forall k :: 0 <= k < n ==> (t.cols[name].bits[k] <==> Passes(entry[j], m.indicators, n, k))
  {
    var n := |m.open|;
    LabelColumn(entry, EntryLabel, m.indicators, n);
    LabelColumn(exit, ExitLabel, m.indicators, n);
    var name := CondName(EntryLabel, entry[j]);
    EntryCondName(entry[j]);
    LabelNames();
    var t0 := Table([], map[]);
    var t1 := t0.PutAll(EvalConditions(entry, EntryLabel, m.indicators, n).writes);
    CondColumn(entry, EntryLabel, m.indicators, n, j, t0);
    ExitKeeps(exit, m.indicators, n, t1, name);
    var t := Columns(entry, exit, m);
    assert t == t1.PutAll(EvalConditions(exit, ExitLabel, m.indicators, n).writes);
    assert t.Valid(n);
  }

  /**
   * The same for the whole endpoint: in the report, a trade's entry reason
   * lists an entry condition's column exactly when that condition passed on
   * the entry bar.
   */
  lemma ConditionInReason(req: Request, fetch: (string, int, int, string) -> Market, j: nat)
    requires var interval := IntervalFor(req.timeframe);
      !RangeRejected(interval, req.from, req.to) ==> fetch(req.symbol, req.from, req.to, interval).Valid()
    requires !RangeRejected(IntervalFor(req.timeframe), req.from, req.to)
    requires AllWellFormed(req.entry) && AllWellFormed(req.exit) && j < |req.entry|
    requires forall k :: j < k < |req.entry| ==> CondName(EntryLabel, req.entry[k]) != CondName(EntryLabel, req.entry[j])
    ensures var m := fetch(req.symbol, req.from, req.to, IntervalFor(req.timeframe));
      var r := RunStrategy(req, fetch);
      && r.Report?
      && forall tr :: tr in r.trades ==>
           tr.entryIndex < |m.open|
           && (CondName(EntryLabel, req.entry[j]) in tr.entryReason <==> Passes(req.entry[j], m.indicators, |m.open|, tr.entryIndex))
  {
    var m := fetch(req.symbol, req.from, req.to, IntervalFor(req.timeframe));
    BacktestReasons(req.entry, req.exit, req.stopLoss, m, j);
  }

  /**
   * A request that is not refused fails exactly when some condition is
   * ill-formed: with the entry conditions' first error when there is one,
   * otherwise with the exit conditions' first error.
   */
  lemma FailureRule(req: Request, fetch: (string, int, int, string) -> Market)
    requires var interval := IntervalFor(req.timeframe);
      !RangeRejected(interval, req.from, req.to) ==> fetch(req.symbol, req.from, req.to, interval).Valid()
    requires !RangeRejected(IntervalFor(req.timeframe), req.from, req.to)
    ensures RunStrategy(req, fetch).Failed? <==> !(AllWellFormed(req.entry) && AllWellFormed(req.exit))
    ensures RunStrategy(req, fetch).Report? <==> AllWellFormed(req.entry) && AllWellFormed(req.exit)
    ensures var m := fetch(req.symbol, req.from, req.to, IntervalFor(req.timeframe));
      !AllWellFormed(req.entry) ==>
        exists j: nat :: FirstIllFormed(req.entry, j)
          && RunStrategy(req, fetch).Failed?
          && Err(RunStrategy(req, fetch).error) == EvalCondition(req.entry[j], EntryLabel, m.indicators, |m.open|).series
    ensures var m := fetch(req.symbol, req.from, req.to, IntervalFor(req.timeframe));
      AllWellFormed(req.entry) && !AllWellFormed(req.exit) ==>
        exists j: nat :: FirstIllFormed(req.exit, j)
          && RunStrategy(req, fetch).Failed?
          && Err(RunStrategy(req, fetch).error) == EvalCondition(req.exit[j], ExitLabel, m.indicators, |m.open|).series
  {
    var m := fetch(req.symbol, req.from, req.to, IntervalFor(req.timeframe));
    LabelColumn(req.entry, EntryLabel, m.indicators, |m.open|);
    LabelColumn(req.exit, ExitLabel, m.indicators, |m.open|);
  }
}
