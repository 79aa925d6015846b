/**
 * One condition of a strategy, as `apply_conditions` in backtester.py
 * evaluates it: the indicator tag selects which indicator column(s) to
 * compute and store, the operator compares them per bar, and the result is
 * a boolean column named after the condition.
 *
 * The indicator numbers come from a technical-analysis library; here they
 * are the fields of a `Library` value, already applied to the close prices,
 * with `None` for a bar that has no value yet (warm-up).
 */
module Indicators {
  import opened Wrappers
  import opened Operators
  import opened Text
  import opened Frames

  /** The closed set of indicator tags the dispatch recognises. */
  datatype Indicator = Rsi | Ema | EmaCross | Macd | MacdCross | MacdHist

  /** The tag as a request spells it. */
  function Tag(ind: Indicator): (s: string)
    ensures |s| > 0 && s[0] != '_' && s[|s| - 1] != '_'
  {
    match ind
    case Rsi => "RSI"
    case Ema => "EMA"
    case EmaCross => "EMA_CROSS"
    case Macd => "MACD"
    case MacdCross => "MACD_CROSS"
    case MacdHist => "MACD_HIST"
  }

  /** The `if indicator == ...` chain; `None` is the final `else`. */
  function ParseIndicator(s: string): (r: Option<Indicator>)
    ensures r.Some? ==> Tag(r.value) == s
    ensures (exists ind :: Tag(ind) == s) ==> r.Some?
  {
    if s == "RSI" then Some(Rsi)
    else if s == "EMA" then Some(Ema)
    else if s == "EMA_CROSS" then Some(EmaCross)
    else if s == "MACD" then Some(Macd)
    else if s == "MACD_CROSS" then Some(MacdCross)
    else if s == "MACD_HIST" then Some(MacdHist)
    else None
  }

  /** A numeric threshold and the way Python prints it (`30`, `30.0`, `-0.5`). */
  datatype Threshold = Threshold(amount: real, text: string)

  /**
   * A condition of the request. Every optional field is always present and
   * `None` when the request leaves it out, so the `getattr` defaults of the
   * evaluator never apply: `None` is passed on to the library as it is.
   */
  datatype Condition = Condition(
    indicator: string,
    operator: string,
    value: Option<Threshold>,
    period: Option<int>,
    fast: Option<int>,
    slow: Option<int>)

  /** The threshold as a number; a missing one compares like NaN. */
  function Amount(v: Option<Threshold>): Option<real>
  {
    match v
    case None => None
    case Some(t) => Some(t.amount)
  }

  /** `str(cond.value)`. */
  function ValueText(v: Option<Threshold>): string
  {
    match v
    case None => "None"
    case Some(t) => t.text
  }

  /** The name of the boolean column that records where `c` held. */
  function CondName(labelName: string, c: Condition): (name: string)
    ensures |name| > 0 ==> name[0] != '_' && name[|name| - 1] != '_'
  {
    Strip(labelName + "__" + c.indicator + "_" + c.operator + "_" + ValueText(c.value))
  }

  /**
   * With a label that does not start with `_` and a threshold text that is
   * non-empty and does not end with `_`, the strip removes nothing: the
   * name is the label, `__`, the tag, the operator and the threshold text,
   * joined by `_`. The period, fast and slow lengths take no part in it.
   */
  lemma CondNameShape(labelName: string, c: Condition)
    requires |labelName| > 0 && labelName[0] != '_'
    requires |ValueText(c.value)| > 0 && ValueText(c.value)[|ValueText(c.value)| - 1] != '_'
    ensures CondName(labelName, c) == labelName + "__" + c.indicator + "_" + c.operator + "_" + ValueText(c.value)
  {
    var s := labelName + "__" + c.indicator + "_" + c.operator + "_" + ValueText(c.value);
    assert s[0] == labelName[0];
    assert s[|s| - 1] == ValueText(c.value)[|ValueText(c.value)| - 1];
    assert TrimStart(s) == s;
    assert TrimEnd(s) == s;
  }

  /** The indicator columns of one bar series, computed over its close prices. */
  datatype Library = Library(
    rsi: Option<int> -> seq<Option<real>>,
    ema: Option<int> -> seq<Option<real>>,
    macdLine: seq<Option<real>>,
    macdSignal: seq<Option<real>>,
    macdHist: seq<Option<real>>)
  {
    /** Every column has one cell per bar. */
    ghost predicate Aligned(n: nat)
    {
      && (forall p :: |rsi(p)| == n)
      && (forall p :: |ema(p)| == n)
      && |macdLine| == n && |macdSignal| == n && |macdHist| == n
    }
  }

  /** The exceptions the evaluator raises. */
  datatype Error =
    | UnsupportedIndicator(indicator: string)     // ValueError naming the tag
    | UnknownOperator(operator: string)           // KeyError from the operator table
    | UnsupportedCrossOperator(operator: string)  // ValueError from the MACD_CROSS branch

  /** What evaluating a condition does: the columns it assigns and its series (or exception). */
  datatype Effect = Effect(writes: seq<Write>, series: Result<seq<bool>, Error>)

  /** `column <op> value`, cell by cell. */
  function Against(op: Op, xs: seq<Option<real>>, v: Option<real>): (r: seq<bool>)
    ensures |r| == |xs|
  {
    seq(|xs|, k requires 0 <= k < |xs| => Holds(op, xs[k], v))
  }

  /** `left <op> right` for two aligned columns, cell by cell. */
  function Pairwise(op: Op, xs: seq<Option<real>>, ys: seq<Option<real>>): (r: seq<bool>)
    requires |xs| == |ys|
    ensures |r| == |xs|
  {
    seq(|xs|, k requires 0 <= k < |xs| => Holds(op, xs[k], ys[k]))
  }

  /** `column.shift(1)`: every cell moves one bar later and bar 0 becomes NaN. */
  function Shift(xs: seq<Option<real>>): (r: seq<Option<real>>)
    ensures |r| == |xs|
    ensures |xs| > 0 ==> r[0] == None
    ensures forall k :: 1 <= k < |xs| ==> r[k] == xs[k - 1]
  {
    if xs == [] then [] else [None] + xs[..|xs| - 1]
  }

  /** `a & b` for two aligned boolean columns. */
  function Both(a: seq<bool>, b: seq<bool>): (r: seq<bool>)
    requires |a| == |b|
    ensures |r| == |a|
  {
    seq(|a|, k requires 0 <= k < |a| => a[k] && b[k])
  }

  /** `OPERATORS[operator](column, value)`. */
  function ThresholdSeries(operator: string, xs: seq<Option<real>>, v: Option<real>): (r: Result<seq<bool>, Error>)
    ensures r.Ok? <==> operator in {">", "<", ">=", "<=", "==", "!="}
    ensures r.Err? ==> r.error == UnknownOperator(operator)
    ensures r.Ok? ==> |r.value| == |xs| && forall k :: 0 <= k < |xs| ==> (r.value[k] <==> Holds(ParseOp(operator).value, xs[k], v))
  {
    match ParseOp(operator)
    case None => Err(UnknownOperator(operator))
    case Some(op) => Ok(Against(op, xs, v))
  }

  /** `OPERATORS[operator](fast, slow)`: no shift, bar against bar. */
  function PairSeries(operator: string, xs: seq<Option<real>>, ys: seq<Option<real>>): (r: Result<seq<bool>, Error>)
    requires |xs| == |ys|
    ensures r.Ok? <==> operator in {">", "<", ">=", "<=", "==", "!="}
    ensures r.Err? ==> r.error == UnknownOperator(operator)
    ensures r.Ok? ==> |r.value| == |xs| && forall k :: 0 <= k < |xs| ==> (r.value[k] <==> Holds(ParseOp(operator).value, xs[k], ys[k]))
  {
    match ParseOp(operator)
    case None => Err(UnknownOperator(operator))
    case Some(op) => Ok(Pairwise(op, xs, ys))
  }

  /** The MACD_CROSS branch: this bar against the shifted previous bar. */
  function CrossSeries(operator: string, line: seq<Option<real>>, signal: seq<Option<real>>): (r: Result<seq<bool>, Error>)
    requires |line| == |signal|
    ensures r.Ok? <==> operator == ">" || operator == "<"
    ensures r.Err? ==> r.error == UnsupportedCrossOperator(operator)
    ensures r.Ok? ==> |r.value| == |line|
  {
    if operator == ">" then
      Ok(Both(Pairwise(Gt, line, signal), Pairwise(Le, Shift(line), Shift(signal))))
    else if operator == "<" then
      Ok(Both(Pairwise(Lt, line, signal), Pairwise(Ge, Shift(line), Shift(signal))))
    else
      Err(UnsupportedCrossOperator(operator))
  }

  /** The branch for a recognised tag: the indicator columns it stores and its series. */
  function IndicatorEffect(ind: Indicator, c: Condition, lib: Library, n: nat): (e: Effect)
    requires lib.Aligned(n)
    ensures forall k :: 0 <= k < |e.writes| ==> Length(e.writes[k].column) == n
    ensures e.series.Ok? ==> |e.series.value| == n
  {
    match ind
    case Rsi =>
      var xs := lib.rsi(c.period);
      Effect([Write("RSI_" + OptionText(c.period), Numbers(xs))], ThresholdSeries(c.operator, xs, Amount(c.value)))
    case Ema =>
      var xs := lib.ema(c.period);
      Effect([Write("EMA_" + OptionText(c.period), Numbers(xs))], ThresholdSeries(c.operator, xs, Amount(c.value)))
    case EmaCross =>
      var fast, slow := lib.ema(c.fast), lib.ema(c.slow);
      Effect([Write("EMA_" + OptionText(c.fast), Numbers(fast)), Write("EMA_" + OptionText(c.slow), Numbers(slow))],
             PairSeries(c.operator, fast, slow))
    case Macd =>
      Effect([Write("MACD_line", Numbers(lib.macdLine))], ThresholdSeries(c.operator, lib.macdLine, Amount(c.value)))
    case MacdCross =>
      Effect([Write("MACD_line", Numbers(lib.macdLine)), Write("MACD_signal", Numbers(lib.macdSignal))],
             CrossSeries(c.operator, lib.macdLine, lib.macdSignal))
    case MacdHist =>
      Effect([Write("MACD_hist", Numbers(lib.macdHist))], ThresholdSeries(c.operator, lib.macdHist, Amount(c.value)))
  }

  /** One pass of the loop body: dispatch, then the condition's own column. */
  function EvalCondition(c: Condition, labelName: string, lib: Library, n: nat): (e: Effect)
    requires lib.Aligned(n)
    ensures forall k :: 0 <= k < |e.writes| ==> Length(e.writes[k].column) == n
    ensures e.series.Ok? ==> |e.series.value| == n
  {
    match ParseIndicator(c.indicator)
    case None => Effect([], Err(UnsupportedIndicator(c.indicator)))
    case Some(ind) =>
      var e := IndicatorEffect(ind, c, lib, n);
      if e.series.Err? then e
      else Effect(e.writes + [Write(CondName(labelName, c), Flags(e.series.value))], e.series)
  }

  // ---------------------------------------------------------------------
  // What a condition means, bar by bar
  // ---------------------------------------------------------------------

  /** The operator string names a comparison, and it holds of the two cells. */
  predicate Satisfies(operator: string, a: Option<real>, b: Option<real>)
  {
    ParseOp(operator).Some? && Holds(ParseOp(operator).value, a, b)
  }

  /** Both cells are defined. */
  predicate Defined(a: Option<real>, b: Option<real>)
  {
    a.Some? && b.Some?
  }

  /**
   * The line crosses the signal in the direction of `up` exactly at bar `k`:
   * it is strictly beyond the signal now and was level or behind it one
   * bar earlier, all four values defined.
   */
  predicate CrossesAt(up: bool, line: seq<Option<real>>, signal: seq<Option<real>>, k: nat)
    requires k < |line| == |signal|
  {
    && k > 0
    && Defined(line[k], signal[k]) && Defined(line[k - 1], signal[k - 1])
    && (if up then line[k].value > signal[k].value && line[k - 1].value <= signal[k - 1].value
        else line[k].value < signal[k].value && line[k - 1].value >= signal[k - 1].value)
  }

  /**
   * Whether a well-formed condition holds at bar `k`, stated without
   * columns: threshold indicators compare their value with the threshold,
   * EMA_CROSS compares the fast and the slow average of the same bar, and
   * MACD_CROSS asks for a crossing at that bar.
   */
  ghost predicate Passes(c: Condition, lib: Library, n: nat, k: nat)
    requires lib.Aligned(n) && k < n
  {
    match ParseIndicator(c.indicator)
    case None => false
    case Some(Rsi) => Satisfies(c.operator, lib.rsi(c.period)[k], Amount(c.value))
    case Some(Ema) => Satisfies(c.operator, lib.ema(c.period)[k], Amount(c.value))
    case Some(EmaCross) => Satisfies(c.operator, lib.ema(c.fast)[k], lib.ema(c.slow)[k])
    case Some(Macd) => Satisfies(c.operator, lib.macdLine[k], Amount(c.value))
    case Some(MacdCross) =>
      (c.operator == ">" || c.operator == "<") && CrossesAt(c.operator == ">", lib.macdLine, lib.macdSignal, k)
    case Some(MacdHist) => Satisfies(c.operator, lib.macdHist[k], Amount(c.value))
  }

  /** The condition is one the evaluator accepts. */
  predicate WellFormed(c: Condition)
  {
    match ParseIndicator(c.indicator)
    case None => false
    case Some(MacdCross) => c.operator == ">" || c.operator == "<"
    case Some(_) => ParseOp(c.operator).Some?
  }

  /** The MACD_CROSS series is true exactly at the crossings, and false at bar 0. */
  lemma CrossSeriesMeaning(operator: string, line: seq<Option<real>>, signal: seq<Option<real>>, k: nat)
    requires k < |line| == |signal|
    requires operator == ">" || operator == "<"
    ensures CrossSeries(operator, line, signal).Ok?
    ensures CrossSeries(operator, line, signal).value[k] <==> CrossesAt(operator == ">", line, signal, k)
    ensures k == 0 ==> !CrossSeries(operator, line, signal).value[k]
  {
    var sl, ss := Shift(line), Shift(signal);
    if k > 0 {
      assert sl[k] == line[k - 1] && ss[k] == signal[k - 1];
    } else {
      assert sl[k] == None;
    }
  }

  /**
   * A condition's series is defined exactly when the condition is well
   * formed, and holds at each bar exactly when `Passes` says so; otherwise
   * the exception names the tag or the operator at fault.
   */
  lemma {:induction false} ConditionMeaning(c: Condition, labelName: string, lib: Library, n: nat)
    requires lib.Aligned(n)
    ensures EvalCondition(c, labelName, lib, n).series.Ok? <==> WellFormed(c)
    ensures WellFormed(c) ==> forall k :: 0 <= k < n ==>
      (EvalCondition(c, labelName, lib, n).series.value[k] <==> Passes(c, lib, n, k))
    ensures WellFormed(c) ==> var e := EvalCondition(c, labelName, lib, n);
      |e.writes| > 0 && e.writes[|e.writes| - 1] == Write(CondName(labelName, c), Flags(e.series.value))
    ensures ParseIndicator(c.indicator).None? ==>
      EvalCondition(c, labelName, lib, n) == Effect([], Err(UnsupportedIndicator(c.indicator)))
    ensures ParseIndicator(c.indicator) == Some(MacdCross) && !WellFormed(c) ==>
      EvalCondition(c, labelName, lib, n).series == Err(UnsupportedCrossOperator(c.operator))
    ensures ParseIndicator(c.indicator).Some? && ParseIndicator(c.indicator) != Some(MacdCross) && !WellFormed(c) ==>
      EvalCondition(c, labelName, lib, n).series == Err(UnknownOperator(c.operator))
  {
    var e := EvalCondition(c, labelName, lib, n);
    if WellFormed(c) {
      var ind := ParseIndicator(c.indicator).value;
      forall k | 0 <= k < n
        ensures e.series.value[k] <==> Passes(c, lib, n, k)
      {
        if ind == MacdCross {
          CrossSeriesMeaning(c.operator, lib.macdLine, lib.macdSignal, k);
        }
      }
    }
  }

  /** A condition's series is defined exactly when the condition is well formed. */
  lemma ConditionDefined(c: Condition, labelName: string, lib: Library, n: nat)
    requires lib.Aligned(n)
    ensures EvalCondition(c, labelName, lib, n).series.Ok? <==> WellFormed(c)
  {
    var parsed := ParseIndicator(c.indicator);
    if parsed.Some? {
      var ie := IndicatorEffect(parsed.value, c, lib, n);
      assert ie.series.Ok? <==> WellFormed(c) by {
        if parsed.value == MacdCross {
          assert ie.series == CrossSeries(c.operator, lib.macdLine, lib.macdSignal);
        }
      }
    }
  }

  /**
   * During warm-up a threshold condition is false at every bar where its
   * indicator has no value, except under `!=`, which pandas answers true
   * for NaN; so is an EMA_CROSS where either average has no value yet; a
   * crossing needs all four of its values.
   */
  lemma WarmUp(c: Condition, lib: Library, n: nat, k: nat)
    requires lib.Aligned(n) && k < n
    ensures ParseIndicator(c.indicator) == Some(Rsi) && lib.rsi(c.period)[k].None? ==>
      (Passes(c, lib, n, k) <==> c.operator == "!=")
    ensures ParseIndicator(c.indicator) == Some(Ema) && lib.ema(c.period)[k].None? ==>
      (Passes(c, lib, n, k) <==> c.operator == "!=")
    ensures ParseIndicator(c.indicator) == Some(Macd) && lib.macdLine[k].None? ==>
      (Passes(c, lib, n, k) <==> c.operator == "!=")
    ensures ParseIndicator(c.indicator) == Some(MacdHist) && lib.macdHist[k].None? ==>
      (Passes(c, lib, n, k) <==> c.operator == "!=")
    ensures ParseIndicator(c.indicator) == Some(EmaCross) && (lib.ema(c.fast)[k].None? || lib.ema(c.slow)[k].None?) ==>
      (Passes(c, lib, n, k) <==> c.operator == "!=")
    ensures ParseIndicator(c.indicator) == Some(MacdCross) && (lib.macdLine[k].None? || lib.macdSignal[k].None?) ==>
      !Passes(c, lib, n, k)
  {
  }

  /**
   * A line that stays level with or below its signal before bar `k` and
   * above it from bar `k` on makes `MACD_CROSS >` fire at bar `k` and
   * nowhere else.
   */
  lemma CrossFiresOnce(line: seq<Option<real>>, signal: seq<Option<real>>, k: nat)
    requires 0 < k < |line| == |signal|
    requires forall j :: 0 <= j < k ==> Defined(line[j], signal[j]) && line[j].value <= signal[j].value
    requires forall j :: k <= j < |line| ==> Defined(line[j], signal[j]) && line[j].value > signal[j].value
    ensures forall j :: 0 <= j < |line| ==> (CrossSeries(">", line, signal).value[j] <==> j == k)
  {
    forall j | 0 <= j < |line|
      ensures CrossSeries(">", line, signal).value[j] <==> j == k
    {
      CrossSeriesMeaning(">", line, signal, j);
    }
  }
}
