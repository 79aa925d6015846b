/**
 * `apply_conditions` of backtester.py: evaluates a list of conditions into
 * a frame, storing each condition's boolean column and, under the caller's
 * label, the conjunction of all of them.
 */
module Evaluator {
  import opened Wrappers
  import opened Text
  import opened Frames
  import opened Indicators

  /**
   * The loop after the conditions `conds`: the columns assigned so far and
   * the running signal, or the exception that ended it.
   */
  function Fold(conds: seq<Condition>, labelName: string, lib: Library, n: nat): (e: Effect)
    requires lib.Aligned(n)
    ensures forall k :: 0 <= k < |e.writes| ==> Length(e.writes[k].column) == n
    ensures e.series.Ok? ==> |e.series.value| == n
    decreases |conds|
  {
    if conds == [] then Effect([], Ok(seq(n, _ => true)))
    else
      var prev := Fold(conds[..|conds| - 1], labelName, lib, n);
      if prev.series.Err? then prev
      else
        var step := EvalCondition(conds[|conds| - 1], labelName, lib, n);
        if step.series.Err? then Effect(prev.writes + step.writes, step.series)
        else Effect(prev.writes + step.writes, Ok(Both(prev.series.value, step.series.value)))
  }

  /** The whole call: the loop, then the label column when no condition raised. */
  function EvalConditions(conds: seq<Condition>, labelName: string, lib: Library, n: nat): (e: Effect)
    requires lib.Aligned(n)
    ensures forall k :: 0 <= k < |e.writes| ==> Length(e.writes[k].column) == n
    ensures e.series.Ok? ==> |e.series.value| == n
  {
    var f := Fold(conds, labelName, lib, n);
    if f.series.Err? then f
    else Effect(f.writes + [Write(labelName, Flags(f.series.value))], f.series)
  }

  /** The indicator branch of the loop body: stores the indicator column(s) and compares. */
  method ApplyIndicator(df: Frame, ind: Indicator, c: Condition, lib: Library) returns (series: Result<seq<bool>, Error>)
    requires df.Valid() && lib.Aligned(|df.open|)
    modifies df
    ensures df.Valid()
    ensures var e := IndicatorEffect(ind, c, lib, |df.open|);
      df.View() == old(df.View()).PutAll(e.writes) && series == e.series
  {
    ghost var t0 := df.View();
    match ind {
      case Rsi =>
        var w := Write("RSI_" + OptionText(c.period), Numbers(lib.rsi(c.period)));
        df.Put(w);
        series := ThresholdSeries(c.operator, df.cols[w.name].nums, Amount(c.value));
        PutAllShort(t0, w, w);
      case Ema =>
        var w := Write("EMA_" + OptionText(c.period), Numbers(lib.ema(c.period)));
        df.Put(w);
        series := ThresholdSeries(c.operator, df.cols[w.name].nums, Amount(c.value));
        PutAllShort(t0, w, w);
      case EmaCross =>
        var wFast := Write("EMA_" + OptionText(c.fast), Numbers(lib.ema(c.fast)));
        var wSlow := Write("EMA_" + OptionText(c.slow), Numbers(lib.ema(c.slow)));
        df.Put(wFast);
        df.Put(wSlow);
        if wFast.name == wSlow.name {
          assert OptionText(c.fast) == wFast.name[4..] == wSlow.name[4..] == OptionText(c.slow);
          OptionTextInjective(c.fast, c.slow);
        }
        series := PairSeries(c.operator, df.cols[wFast.name].nums, df.cols[wSlow.name].nums);
        PutAllShort(t0, wFast, wSlow);
      case Macd =>
        var w := Write("MACD_line", Numbers(lib.macdLine));
        df.Put(w);
        series := ThresholdSeries(c.operator, df.cols[w.name].nums, Amount(c.value));
        PutAllShort(t0, w, w);
      case MacdCross =>
        var wLine := Write("MACD_line", Numbers(lib.macdLine));
        var wSignal := Write("MACD_signal", Numbers(lib.macdSignal));
        df.Put(wLine);
        df.Put(wSignal);
        series := CrossSeries(c.operator, df.cols[wLine.name].nums, df.cols[wSignal.name].nums);
        PutAllShort(t0, wLine, wSignal);
      case MacdHist =>
        var w := Write("MACD_hist", Numbers(lib.macdHist));
        df.Put(w);
        series := ThresholdSeries(c.operator, df.cols[w.name].nums, Amount(c.value));
        PutAllShort(t0, w, w);
    }
  }

  /**
   * One pass of the loop of `apply_conditions`: dispatch on the tag, store
   * the indicator column(s) and, unless the comparison raised, the
   * condition's own column.
   */
  method ApplyCondition(df: Frame, c: Condition, labelName: string, lib: Library) returns (series: Result<seq<bool>, Error>)
    requires df.Valid() && lib.Aligned(|df.open|)
    modifies df
    ensures df.Valid()
    ensures var e := EvalCondition(c, labelName, lib, |df.open|);
      df.View() == old(df.View()).PutAll(e.writes) && series == e.series
  {
    var tag := ParseIndicator(c.indicator);
    if tag.None? {
      return Err(UnsupportedIndicator(c.indicator));
    }
    ghost var t0 := df.View();
    ghost var e := IndicatorEffect(tag.value, c, lib, |df.open|);
    series := ApplyIndicator(df, tag.value, c, lib);
    if series.Ok? {
      var w := Write(CondName(labelName, c), Flags(series.value));
      df.Put(w);
      PutAllSnoc(t0, [], e.writes, w);
      assert [] + e.writes == e.writes;
    }
  }

  /**
   * `apply_conditions(df, conditions, label, close_col)`: the frame ends up
   * with exactly the assignments `EvalConditions` lists, and `failure`
   * carries the exception, if one was raised.
   */
  method ApplyConditions(df: Frame, conds: seq<Condition>, labelName: string, lib: Library)
    returns (failure: Option<Error>)
    requires df.Valid() && lib.Aligned(|df.open|)
    modifies df
    ensures df.Valid()
    ensures var e := EvalConditions(conds, labelName, lib, |df.open|);
      && df.View() == old(df.View()).PutAll(e.writes)
      && failure == if e.series.Err? then Some(e.series.error) else None
  {
    var n := |df.open|;
    var signal := seq(n, _ => true);
    var k := 0;
    while k < |conds|
      invariant 0 <= k <= |conds|
      invariant df.Valid()
      invariant Fold(conds[..k], labelName, lib, n).series == Ok(signal)
      invariant df.View() == old(df.View()).PutAll(Fold(conds[..k], labelName, lib, n).writes)
    {
      ghost var before := Fold(conds[..k], labelName, lib, n);
      FoldNext(conds, k, labelName, lib, n);
      var series := ApplyCondition(df, conds[k], labelName, lib);
      PutAllAppend(old(df.View()), before.writes, EvalCondition(conds[k], labelName, lib, n).writes);
      if series.Err? {
        FoldStopsAtError(conds, k + 1, labelName, lib, n);
        assert conds[..|conds|] == conds;
        return Some(series.error);
      }
      signal := Both(signal, series.value);
      k := k + 1;
    }
    assert conds[..k] == conds;
    var w := Write(labelName, Flags(signal));
    df.Put(w);
    PutAllSnoc(old(df.View()), Fold(conds, labelName, lib, n).writes, [], w);
    failure := None;
  }

  /** One more pass of the loop, while no condition has raised. */
  lemma FoldNext(conds: seq<Condition>, k: nat, labelName: string, lib: Library, n: nat)
    requires lib.Aligned(n) && k < |conds|
    requires Fold(conds[..k], labelName, lib, n).series.Ok?
    ensures var prev := Fold(conds[..k], labelName, lib, n);
      var step := EvalCondition(conds[k], labelName, lib, n);
      Fold(conds[..k + 1], labelName, lib, n) ==
        if step.series.Err? then Effect(prev.writes + step.writes, step.series)
        else Effect(prev.writes + step.writes, Ok(Both(prev.series.value, step.series.value)))
  {
    assert conds[..k + 1][..k] == conds[..k];
  }

  /** Assigning `a`, then `b`, then `w`. */
  lemma PutAllSnoc(t: Table, a: seq<Write>, b: seq<Write>, w: Write)
    ensures t.PutAll(a + b + [w]) == t.PutAll(a + b).Put(w)
  {
    assert (a + b + [w])[..|a + b + [w]| - 1] == a + b;
  }

  /** Once a condition raises, the later ones are never evaluated. */
  lemma {:induction false} FoldStopsAtError(conds: seq<Condition>, j: nat, labelName: string, lib: Library, n: nat)
    requires lib.Aligned(n) && j <= |conds|
    requires Fold(conds[..j], labelName, lib, n).series.Err?
    ensures Fold(conds, labelName, lib, n) == Fold(conds[..j], labelName, lib, n)
    decreases |conds| - j
  {
    if j < |conds| {
      assert conds[..j + 1][..j] == conds[..j];
      FoldStopsAtError(conds, j + 1, labelName, lib, n);
    } else {
      assert conds[..j] == conds;
    }
  }

  /** Every condition of `conds` is well formed. */
  predicate AllWellFormed(conds: seq<Condition>)
  {
    forall j :: 0 <= j < |conds| ==> WellFormed(conds[j])
  }

  /** Every condition of `conds` passes at bar `k`. */
  ghost predicate AllPass(conds: seq<Condition>, lib: Library, n: nat, k: nat)
    requires lib.Aligned(n) && k < n
  {
    forall j :: 0 <= j < |conds| ==> Passes(conds[j], lib, n, k)
  }

  /** `conds[j]` is the first condition that is not well formed. */
  predicate FirstIllFormed(conds: seq<Condition>, j: nat)
  {
    j < |conds| && AllWellFormed(conds[..j]) && !WellFormed(conds[j])
  }

  /** Splitting off the last condition splits both conjunctions. */
  lemma SplitLast(conds: seq<Condition>, lib: Library, n: nat)
    requires conds != [] && lib.Aligned(n)
    ensures var init, last := conds[..|conds| - 1], conds[|conds| - 1];
      && (AllWellFormed(conds) <==> AllWellFormed(init) && WellFormed(last))
      && (forall k :: 0 <= k < n ==> (AllPass(conds, lib, n, k) <==> AllPass(init, lib, n, k) && Passes(last, lib, n, k)))
  {
    SplitWellFormed(conds);
    forall k | 0 <= k < n
      ensures AllPass(conds, lib, n, k) <==> AllPass(conds[..|conds| - 1], lib, n, k) && Passes(conds[|conds| - 1], lib, n, k)
    {
      SplitPass(conds, lib, n, k);
    }
  }

  /** Splitting off the last condition splits the conjunction of passes at one bar. */
  lemma SplitPass(conds: seq<Condition>, lib: Library, n: nat, k: nat)
    requires conds != [] && lib.Aligned(n) && k < n
    ensures AllPass(conds, lib, n, k) <==> AllPass(conds[..|conds| - 1], lib, n, k) && Passes(conds[|conds| - 1], lib, n, k)
  {
    var init := conds[..|conds| - 1];
    assert forall j :: 0 <= j < |init| ==> init[j] == conds[j];
  }

  /**
   * The running signal is defined exactly when every condition so far is
   * well formed, and then holds at a bar exactly when every one of them
   * passes there; with no condition it is true at every bar.
   */
  lemma {:induction false} FoldMeaning(conds: seq<Condition>, labelName: string, lib: Library, n: nat)
    requires lib.Aligned(n)
    ensures Fold(conds, labelName, lib, n).series.Ok? <==> AllWellFormed(conds)
    ensures Fold(conds, labelName, lib, n).series.Ok? ==> forall k :: 0 <= k < n ==>
      (Fold(conds, labelName, lib, n).series.value[k] <==> AllPass(conds, lib, n, k))
    decreases |conds|
  {
    if conds != [] {
      var init, last := conds[..|conds| - 1], conds[|conds| - 1];
      FoldMeaning(init, labelName, lib, n);
      ConditionMeaning(last, labelName, lib, n);
      SplitLast(conds, lib, n);
      var prev, step := Fold(init, labelName, lib, n), EvalCondition(last, labelName, lib, n);
      if prev.series.Ok? && step.series.Ok? {
        var sig := Fold(conds, labelName, lib, n).series.value;
        assert sig == Both(prev.series.value, step.series.value);
        forall k | 0 <= k < n
          ensures sig[k] <==> AllPass(conds, lib, n, k)
        {
          assert sig[k] == (prev.series.value[k] && step.series.value[k]);
        }
      }
    }
  }

  /** When the loop raises, the exception is the first ill-formed condition's. */
  lemma FoldFailure(conds: seq<Condition>, labelName: string, lib: Library, n: nat)
    requires lib.Aligned(n)
    requires Fold(conds, labelName, lib, n).series.Err?
    ensures exists j: nat :: (FirstIllFormed(conds, j)
      && Fold(conds, labelName, lib, n).series == EvalCondition(conds[j], labelName, lib, n).series)
  {
    var j := FailingCondition(conds, labelName, lib, n);
  }

  /** The index of the condition whose exception ends the loop. */
  lemma FailingCondition(conds: seq<Condition>, labelName: string, lib: Library, n: nat) returns (j: nat)
    requires lib.Aligned(n)
    requires Fold(conds, labelName, lib, n).series.Err?
    ensures FirstIllFormed(conds, j)
    ensures Fold(conds, labelName, lib, n).series == EvalCondition(conds[j], labelName, lib, n).series
  {
    FoldDefined(conds, labelName, lib, n);
    j := FirstBad(conds);
    FailsAt(conds, j, labelName, lib, n);
  }

  /** A list that is not all well formed has a first ill-formed condition. */
  lemma {:induction false} FirstBad(conds: seq<Condition>) returns (j: nat)
    requires !AllWellFormed(conds)
    ensures FirstIllFormed(conds, j)
    decreases |conds|
  {
    var init := conds[..|conds| - 1];
    SplitWellFormed(conds);
    if AllWellFormed(init) {
      j := |conds| - 1;
      assert conds[..j] == init;
    } else {
      j := FirstBad(init);
      FirstIllFormedExtends(conds, j);
    }
  }

  /** The first ill-formed condition's exception ends the loop. */
  lemma FailsAt(conds: seq<Condition>, j: nat, labelName: string, lib: Library, n: nat)
    requires lib.Aligned(n) && FirstIllFormed(conds, j)
    ensures Fold(conds, labelName, lib, n).series == EvalCondition(conds[j], labelName, lib, n).series
  {
    var upto := conds[..j + 1];
    assert upto[..j] == conds[..j] && upto[j] == conds[j];
    FoldDefined(conds[..j], labelName, lib, n);
    ConditionDefined(conds[j], labelName, lib, n);
    FoldLastError(upto, labelName, lib, n);
    FoldStopsAtError(conds, j + 1, labelName, lib, n);
  }

  /** A loop that had not raised before its last condition raises with that condition's exception. */
  lemma FoldLastError(conds: seq<Condition>, labelName: string, lib: Library, n: nat)
    requires lib.Aligned(n) && conds != []
    requires Fold(conds[..|conds| - 1], labelName, lib, n).series.Ok?
    requires Fold(conds, labelName, lib, n).series.Err?
    ensures Fold(conds, labelName, lib, n).series == EvalCondition(conds[|conds| - 1], labelName, lib, n).series
  {
  }

  /** The first ill-formed condition of a prefix is the first of the whole list. */
  lemma FirstIllFormedExtends(conds: seq<Condition>, j: nat)
    requires conds != [] && FirstIllFormed(conds[..|conds| - 1], j)
    ensures FirstIllFormed(conds, j) && conds[j] == conds[..|conds| - 1][j]
  {
    assert conds[..j] == conds[..|conds| - 1][..j];
  }

  /** The running signal is defined exactly when every condition so far is well formed. */
  lemma {:induction false} FoldDefined(conds: seq<Condition>, labelName: string, lib: Library, n: nat)
    requires lib.Aligned(n)
    ensures Fold(conds, labelName, lib, n).series.Ok? <==> AllWellFormed(conds)
    decreases |conds|
  {
    if conds != [] {
      var init, last := conds[..|conds| - 1], conds[|conds| - 1];
      FoldDefined(init, labelName, lib, n);
      ConditionDefined(last, labelName, lib, n);
      SplitWellFormed(conds);
    }
  }

  /** Splitting off the last condition splits the conjunction of well-formedness. */
  lemma SplitWellFormed(conds: seq<Condition>)
    requires conds != []
    ensures AllWellFormed(conds) <==> AllWellFormed(conds[..|conds| - 1]) && WellFormed(conds[|conds| - 1])
  {
    var init := conds[..|conds| - 1];
    assert forall j :: 0 <= j < |init| ==> init[j] == conds[j];
  }

  /**
   * What `apply_conditions` leaves under its label: when no condition
   * raises, the last column it assigns is the label column, one cell per
   * bar, true exactly where every condition passes (everywhere when there
   * are none); otherwise the exception is the first ill-formed condition's.
   */
  lemma LabelColumn(conds: seq<Condition>, labelName: string, lib: Library, n: nat)
    requires lib.Aligned(n)
    ensures var e := EvalConditions(conds, labelName, lib, n);
      && (e.series.Ok? <==> AllWellFormed(conds))
      && (e.series.Ok? ==>
            && |e.series.value| == n
            && |e.writes| > 0 && e.writes[|e.writes| - 1] == Write(labelName, Flags(e.series.value))
            && (forall k :: 0 <= k < n ==> (e.series.value[k] <==> AllPass(conds, lib, n, k))))
      && (e.series.Err? ==>
            exists j: nat :: FirstIllFormed(conds, j) && e.series == EvalCondition(conds[j], labelName, lib, n).series)
    ensures conds == [] ==> var e := EvalConditions(conds, labelName, lib, n);
      e.series.Ok? && forall k :: 0 <= k < n ==> e.series.value[k]
  {
    FoldMeaning(conds, labelName, lib, n);
    if Fold(conds, labelName, lib, n).series.Err? {
      FoldFailure(conds, labelName, lib, n);
    }
  }

  /** The names the indicator branches give their columns. */
  predicate IndicatorColumnName(s: string)
  {
    StartsWith(s, "RSI_") || StartsWith(s, "EMA_") || s == "MACD_line" || s == "MACD_signal" || s == "MACD_hist"
  }

  /** A label that `str.strip("_")` leaves alone at the front. */
  predicate GoodLabel(labelName: string)
  {
    |labelName| > 0 && labelName[0] != '_'
  }

  /** A condition's column is named after the label, its tag and the rest. */
  lemma CondNamePrefix(labelName: string, c: Condition)
    requires GoodLabel(labelName) && ParseIndicator(c.indicator).Some?
    ensures StartsWith(CondName(labelName, c), labelName + "__" + c.indicator)
    ensures StartsWith(CondName(labelName, c), labelName + "__")
  {
    var p := labelName + "__" + c.indicator;
    var q := "_" + c.operator + "_" + ValueText(c.value);
    assert labelName + "__" + c.indicator + "_" + c.operator + "_" + ValueText(c.value) == p + q;
    assert p[0] == labelName[0];
    assert p[|p| - 1] == c.indicator[|c.indicator| - 1];
    StripKeepsPrefix(p, q);
    assert StartsWith(p, labelName + "__") by {
      assert p[..|labelName + "__"|] == labelName + "__";
    }
    StartsWithTransitive(CondName(labelName, c), p, labelName + "__");
  }

  /** The indicator branches assign indicator columns only. */
  lemma IndicatorWrites(ind: Indicator, c: Condition, lib: Library, n: nat)
    requires lib.Aligned(n)
    ensures var e := IndicatorEffect(ind, c, lib, n);
      forall k :: 0 <= k < |e.writes| ==> IndicatorColumnName(e.writes[k].name)
  {
    var e := IndicatorEffect(ind, c, lib, n);
    assert StartsWith("RSI_" + OptionText(c.period), "RSI_");
    assert StartsWith("EMA_" + OptionText(c.period), "EMA_");
    assert StartsWith("EMA_" + OptionText(c.fast), "EMA_");
    assert StartsWith("EMA_" + OptionText(c.slow), "EMA_");
  }

  /**
   * The loop assigns only indicator columns and columns whose names start
   * with `label + "__"`; so a name of neither kind is never touched.
   */
  lemma {:induction false} FoldAvoids(conds: seq<Condition>, labelName: string, lib: Library, n: nat, other: string)
    requires lib.Aligned(n) && GoodLabel(labelName)
    requires !IndicatorColumnName(other) && !StartsWith(other, labelName + "__")
    ensures forall k :: 0 <= k < |Fold(conds, labelName, lib, n).writes| ==> Fold(conds, labelName, lib, n).writes[k].name != other
    decreases |conds|
  {
    if conds != [] {
      var init, c := conds[..|conds| - 1], conds[|conds| - 1];
      FoldAvoids(init, labelName, lib, n, other);
      FoldWrites(conds, labelName, lib, n);
      var prev: seq<Write>, step: seq<Write> := Fold(init, labelName, lib, n).writes, EvalCondition(c, labelName, lib, n).writes;
      if Fold(init, labelName, lib, n).series.Ok? {
        PassAvoids(c, labelName, lib, n, other);
        AvoidsAppend(prev, step, other);
      }
    }
  }

  /** The loop's assignments: the earlier passes', then the last pass's unless an earlier one raised. */
  lemma FoldWrites(conds: seq<Condition>, labelName: string, lib: Library, n: nat)
    requires lib.Aligned(n) && conds != []
    ensures var prev := Fold(conds[..|conds| - 1], labelName, lib, n);
      Fold(conds, labelName, lib, n).writes ==
        if prev.series.Ok? then prev.writes + EvalCondition(conds[|conds| - 1], labelName, lib, n).writes
        else prev.writes
  {
  }

  /** Any pass, raising or not, writes only indicator columns and columns prefixed by the label. */
  lemma PassAvoids(c: Condition, labelName: string, lib: Library, n: nat, other: string)
    requires lib.Aligned(n) && GoodLabel(labelName)
    requires !IndicatorColumnName(other) && !StartsWith(other, labelName + "__")
    ensures var e := EvalCondition(c, labelName, lib, n);
      forall k :: 0 <= k < |e.writes| ==> e.writes[k].name != other
  {
    if ParseIndicator(c.indicator).Some? {
      var ind := ParseIndicator(c.indicator).value;
      var ie := IndicatorEffect(ind, c, lib, n);
      IndicatorWrites(ind, c, lib, n);
      assert forall k :: 0 <= k < |ie.writes| ==> ie.writes[k].name != other;
      if ie.series.Ok? {
        var w := Write(CondName(labelName, c), Flags(ie.series.value));
        CondNamePrefix(labelName, c);
        assert w.name != other;
        AvoidsAppend(ie.writes, [w], other);
        assert EvalCondition(c, labelName, lib, n).writes == ie.writes + [w];
      }
    }
  }

  /**
   * A condition whose column name no later condition shares: after the
   * loop its column holds that condition's own series. (The name leaves out
   * period, fast and slow, so two conditions that differ only there share a
   * column, and the later one's series is what stays.)
   */
  lemma {:induction false} FoldKeeps(conds: seq<Condition>, labelName: string, lib: Library, n: nat, j: nat, t: Table,
                                     name: string, bits: seq<bool>)
    requires lib.Aligned(n) && AllWellFormed(conds) && j < |conds|
    requires name == CondName(labelName, conds[j]) && !IndicatorColumnName(name)
    requires EvalCondition(conds[j], labelName, lib, n).series == Ok(bits)
    requires forall k :: j < k < |conds| ==> CondName(labelName, conds[k]) != name
    ensures name in t.PutAll(Fold(conds, labelName, lib, n).writes).cols
    ensures t.PutAll(Fold(conds, labelName, lib, n).writes).cols[name] == Flags(bits)
    decreases |conds|
  {
    if j == |conds| - 1 {
      KeepsLast(conds, labelName, lib, n, t);
    } else {
      DropLast(conds, labelName, j, name);
      FoldKeeps(conds[..|conds| - 1], labelName, lib, n, j, t, name, bits);
      KeepsEarlier(conds, labelName, lib, n, j, t);
    }
  }

  /** Dropping the last condition keeps the hypotheses about an earlier one. */
  lemma DropLast(conds: seq<Condition>, labelName: string, j: nat, name: string)
    requires AllWellFormed(conds) && j < |conds| - 1
    requires forall k :: j < k < |conds| ==> CondName(labelName, conds[k]) != name
    ensures var init := conds[..|conds| - 1];
      && AllWellFormed(init) && init[j] == conds[j]
      && CondName(labelName, conds[|conds| - 1]) != name
      && forall k :: j < k < |init| ==> CondName(labelName, init[k]) != name
  {
    var init := conds[..|conds| - 1];
    assert forall k :: 0 <= k < |init| ==> init[k] == conds[k];
  }

  /** The last condition's column holds its series after the loop. */
  lemma KeepsLast(conds: seq<Condition>, labelName: string, lib: Library, n: nat, t: Table)
    requires lib.Aligned(n) && AllWellFormed(conds) && conds != []
    ensures var c := conds[|conds| - 1];
      var u := t.PutAll(Fold(conds, labelName, lib, n).writes);
      && EvalCondition(c, labelName, lib, n).series.Ok?
      && CondName(labelName, c) in u.cols
      && u.cols[CondName(labelName, c)] == Flags(EvalCondition(c, labelName, lib, n).series.value)
  {
    var init, c := conds[..|conds| - 1], conds[|conds| - 1];
    FoldLastWrites(conds, labelName, lib, n);
    var prev, step := Fold(init, labelName, lib, n), EvalCondition(c, labelName, lib, n);
    StepStores(c, labelName, lib, n, t.PutAll(prev.writes));
    PutAllAppend(t, prev.writes, step.writes);
  }

  /** An earlier condition's column survives the last pass when the last condition's name differs. */
  lemma KeepsEarlier(conds: seq<Condition>, labelName: string, lib: Library, n: nat, j: nat, t: Table)
    requires lib.Aligned(n) && AllWellFormed(conds) && j < |conds| - 1
    requires !IndicatorColumnName(CondName(labelName, conds[j]))
    requires CondName(labelName, conds[|conds| - 1]) != CondName(labelName, conds[j])
    requires CondName(labelName, conds[j]) in t.PutAll(Fold(conds[..|conds| - 1], labelName, lib, n).writes).cols
    ensures var name := CondName(labelName, conds[j]);
      && name in t.PutAll(Fold(conds, labelName, lib, n).writes).cols
      && t.PutAll(Fold(conds, labelName, lib, n).writes).cols[name]
         == t.PutAll(Fold(conds[..|conds| - 1], labelName, lib, n).writes).cols[name]
  {
    var init, c := conds[..|conds| - 1], conds[|conds| - 1];
    FoldLastWrites(conds, labelName, lib, n);
    StepAvoids(c, labelName, lib, n, CondName(labelName, conds[j]));
    KeptAcross(t, Fold(init, labelName, lib, n).writes, EvalCondition(c, labelName, lib, n).writes, CondName(labelName, conds[j]));
  }

  /** With well-formed conditions the loop's assignments are those of the earlier passes, then the last pass's. */
  lemma FoldLastWrites(conds: seq<Condition>, labelName: string, lib: Library, n: nat)
    requires lib.Aligned(n) && AllWellFormed(conds) && conds != []
    ensures var init := conds[..|conds| - 1];
      && AllWellFormed(init)
      && Fold(conds, labelName, lib, n).writes ==
         Fold(init, labelName, lib, n).writes + EvalCondition(conds[|conds| - 1], labelName, lib, n).writes
  {
    var init := conds[..|conds| - 1];
    assert AllWellFormed(init) by {
      forall k | 0 <= k < |init| ensures WellFormed(init[k]) {
        assert init[k] == conds[k];
      }
    }
    FoldMeaning(init, labelName, lib, n);
    ConditionMeaning(conds[|conds| - 1], labelName, lib, n);
  }

  /** A well-formed condition's pass ends by storing its series under its own name. */
  lemma StepStores(c: Condition, labelName: string, lib: Library, n: nat, t: Table)
    requires lib.Aligned(n) && WellFormed(c)
    ensures var e := EvalCondition(c, labelName, lib, n);
      && e.series.Ok?
      && CondName(labelName, c) in t.PutAll(e.writes).cols
      && t.PutAll(e.writes).cols[CondName(labelName, c)] == Flags(e.series.value)
  {
    ConditionMeaning(c, labelName, lib, n);
  }

  /** A pass writes only indicator columns and its own column. */
  lemma StepAvoids(c: Condition, labelName: string, lib: Library, n: nat, other: string)
    requires lib.Aligned(n) && WellFormed(c)
    requires !IndicatorColumnName(other) && CondName(labelName, c) != other
    ensures var e := EvalCondition(c, labelName, lib, n);
      forall k :: 0 <= k < |e.writes| ==> e.writes[k].name != other
  {
    var ind := ParseIndicator(c.indicator).value;
    var ie := IndicatorEffect(ind, c, lib, n);
    IndicatorWrites(ind, c, lib, n);
    ConditionDefined(c, labelName, lib, n);
    var w := Write(CondName(labelName, c), Flags(ie.series.value));
    AvoidsAppend(ie.writes, [w], other);
    assert EvalCondition(c, labelName, lib, n).writes == ie.writes + [w];
  }

  /**
   * What `apply_conditions` leaves under a condition's own name, when no
   * condition raises and no later condition shares the name: that
   * condition's series, true at a bar exactly when it passes there.
   */
  lemma CondColumn(conds: seq<Condition>, labelName: string, lib: Library, n: nat, j: nat, t: Table)
    requires lib.Aligned(n) && GoodLabel(labelName) && AllWellFormed(conds) && j < |conds|
    requires !IndicatorColumnName(CondName(labelName, conds[j]))
    requires forall k :: j < k < |conds| ==> CondName(labelName, conds[k]) != CondName(labelName, conds[j])
    ensures var name := CondName(labelName, conds[j]);
      var u := t.PutAll(EvalConditions(conds, labelName, lib, n).writes);
      && name in u.cols && u.cols[name].Flags? && |u.cols[name].bits| == n
      && forall k :: 0 <= k < n ==> (u.cols[name].bits[k] <==> Passes(conds[j], lib, n, k))
  {
    var name := CondName(labelName, conds[j]);
    FoldMeaning(conds, labelName, lib, n);
    ConditionMeaning(conds[j], labelName, lib, n);
    FoldKeeps(conds, labelName, lib, n, j, t, name, EvalCondition(conds[j], labelName, lib, n).series.value);
    CondNamePrefix(labelName, conds[j]);
    assert name != labelName by {
      assert |name| >= |labelName + "__"|;
    }
    var f := Fold(conds, labelName, lib, n);
    assert EvalConditions(conds, labelName, lib, n).writes == f.writes + [Write(labelName, Flags(f.series.value))];
    PutAllSnoc(t, f.writes, [], Write(labelName, Flags(f.series.value)));
    assert f.writes + [] == f.writes;
  }

  /** A call that raises leaves no column under its label. */
  lemma NoLabelOnError(conds: seq<Condition>, labelName: string, lib: Library, n: nat)
    requires lib.Aligned(n) && GoodLabel(labelName) && !IndicatorColumnName(labelName)
    requires EvalConditions(conds, labelName, lib, n).series.Err?
    ensures forall k :: 0 <= k < |EvalConditions(conds, labelName, lib, n).writes| ==>
      EvalConditions(conds, labelName, lib, n).writes[k].name != labelName
  {
    FoldAvoids(conds, labelName, lib, n, labelName);
  }
}
