/**
 * `run_backtest` of backtester.py: one pass over bars 1..N-1 with two
 * states, flat and holding a position. A position opens at a bar's open
 * when the entry signal was true on the previous bar; it closes at a bar's
 * open when the exit signal was true on the previous bar ("Exit Signal"),
 * or else when the move from the entry price has reached the stop loss
 * ("Stop Loss"). A position still open after the last bar is dropped.
 */
module Simulator {
  import opened Wrappers
  import opened Text
  import opened Frames

  datatype ExitReason = ExitSignal | StopLoss

  /**
   * A closed trade. Dates are bar indices; prices and the percentage are
   * exact (the two-decimal rounding of the report is not modelled); the
   * entry reason is the list of column names the report joins into
   * "name=True, ...".
   */
  datatype Trade = Trade(
    entryIndex: nat,
    exitIndex: nat,
    entryPrice: real,
    exitPrice: real,
    pnlPct: real,
    entryReason: seq<string>,
    exitReason: ExitReason)

  /** `in_position` with `entry_index`, `entry_price` and `entry_reason`. */
  datatype Position = Flat | Holding(entryIndex: nat, entryPrice: real, reason: seq<string>)

  /** The loop's variables between two bars. */
  datatype State = State(position: Position, trades: seq<Trade>)

  /** `current_row.get(col) == True` (a number equal to 1 compares equal to True too). */
  predicate TrueAt(c: Column, i: nat)
  {
    match c
    case Flags(bits) => i < |bits| && bits[i]
    case Numbers(nums) => i < |nums| && nums[i] == Some(1.0)
  }

  /** Every listed name has a column. */
  ghost predicate Stored(t: Table)
  {
    forall k :: 0 <= k < |t.names| ==> t.names[k] in t.cols
  }

  /** `xs` is `ys` with some elements left out, the rest kept in their order. */
  ghost predicate Subsequence(xs: seq<string>, ys: seq<string>)
    decreases |ys|
  {
    || xs == []
    || (&& ys != []
        && (|| Subsequence(xs, ys[..|ys| - 1])
            || (xs[|xs| - 1] == ys[|ys| - 1] && Subsequence(xs[..|xs| - 1], ys[..|ys| - 1]))))
  }

  /** No name occurs twice. */
  ghost predicate Distinct(xs: seq<string>)
  {
    forall a, b :: 0 <= a < b < |xs| ==> xs[a] != xs[b]
  }

  /**
   * The entry reason at row `i`: the names, in column order, that start
   * with "entry_" and whose cell at row `i` equals True.
   */
  function ReasonColumns(names: seq<string>, cols: map<string, Column>, i: nat): (r: seq<string>)
    requires forall k :: 0 <= k < |names| ==> names[k] in cols
    ensures forall name :: name in r <==> name in names && StartsWith(name, "entry_") && TrueAt(cols[name], i)
    ensures |r| <= |names| && Subsequence(r, names)
    ensures Distinct(names) ==> Distinct(r)
    decreases |names|
  {
    if names == [] then []
    else
      var rest := ReasonColumns(names[..|names| - 1], cols, i);
      var name := names[|names| - 1];
      assert forall x :: x in names <==> x in names[..|names| - 1] || x == name;
      if StartsWith(name, "entry_") && TrueAt(cols[name], i) then
        assert (rest + [name])[..|rest|] == rest;
        assert Distinct(names) ==> name !in names[..|names| - 1];
        rest + [name]
      else rest
  }

  function EntryReason(t: Table, i: nat): seq<string>
    requires Stored(t)
  {
    ReasonColumns(t.names, t.cols, i)
  }

  /** The entry reason of every row of a frame with `n` rows. */
  function Reasons(t: Table, n: nat): (r: seq<seq<string>>)
    requires Stored(t)
    ensures |r| == n
    ensures forall i, name :: 0 <= i < n ==>
      (name in r[i] <==> name in t.names && StartsWith(name, "entry_") && TrueAt(t.cols[name], i))
  {
    seq(n, i requires 0 <= i < n => EntryReason(t, i))
  }

  /** The columns the simulator reads, one cell per bar. */
  datatype Session = Session(open: seq<real>, entry: seq<bool>, exit: seq<bool>, reasons: seq<seq<string>>)
  {
    /** Aligned columns, and no open price is zero (the percentage divides by the entry price). */
    predicate WellFormed()
    {
      && |entry| == |open| && |exit| == |open| && |reasons| == |open|
      && forall i :: 0 <= i < |open| ==> open[i] != 0.0
    }
  }

  /** `(current_price - entry_price) / entry_price * 100`. */
  function ChangePct(entryPrice: real, price: real): (pct: real)
    requires entryPrice != 0.0
    ensures entryPrice + entryPrice * pct / 100.0 == price
  {
    (price - entryPrice) / entryPrice * 100.0
  }

  /** The body of the loop for bar `i`. */
  function Step(s: Session, stopLossPct: real, st: State, i: nat): (r: State)
    requires s.WellFormed() && 1 <= i < |s.open|
    requires st.position.Holding? ==> st.position.entryPrice != 0.0
    ensures st.trades <= r.trades && |r.trades| <= |st.trades| + 1
    ensures |r.trades| > |st.trades| ==>
      && st.position.Holding? && r.position.Flat?
      && r.trades[|st.trades|].entryIndex == st.position.entryIndex
      && r.trades[|st.trades|].exitIndex == i
      && r.trades[|st.trades|].exitPrice == s.open[i]
    ensures st.position.Flat? ==> r.trades == st.trades && (r.position.Holding? <==> s.entry[i - 1])
    ensures st.position.Holding? && s.exit[i - 1] ==> r.position.Flat? && |r.trades| == |st.trades| + 1 && r.trades[|st.trades|].exitReason == ExitSignal
  {
    match st.position
    case Flat =>
      if s.entry[i - 1] then State(Holding(i, s.open[i], s.reasons[i]), st.trades) else st
    case Holding(e, p, r) =>
      var pct := ChangePct(p, s.open[i]);
      if s.exit[i - 1] then State(Flat, st.trades + [Trade(e, i, p, s.open[i], pct, r, ExitSignal)])
      else if pct <= -stopLossPct then State(Flat, st.trades + [Trade(e, i, p, s.open[i], pct, r, StopLoss)])
      else st
  }

  /** The loop's variables once bars 1..k-1 have been processed. */
  function Run(s: Session, stopLossPct: real, k: nat): (st: State)
    requires s.WellFormed() && (k <= |s.open| || k <= 1)
    ensures st.position.Holding? ==>
      1 <= st.position.entryIndex < k <= |s.open| && st.position.entryPrice == s.open[st.position.entryIndex]
    decreases k
  {
    if k <= 1 then State(Flat, []) else Step(s, stopLossPct, Run(s, stopLossPct, k - 1), k - 1)
  }

  /** The list `run_backtest` returns. */
  function Ledger(s: Session, stopLossPct: real): seq<Trade>
    requires s.WellFormed()
  {
    Run(s, stopLossPct, |s.open|).trades
  }

  /** The columns of `df` the simulator reads. */
  function SessionOf(df: Frame, entryCol: string, exitCol: string): (s: Session)
    reads df
    requires df.Valid()
    requires entryCol in df.cols && df.cols[entryCol].Flags?
    requires exitCol in df.cols && df.cols[exitCol].Flags?
    ensures |s.entry| == |s.exit| == |s.reasons| == |s.open| == |df.open|
    ensures forall i, name :: 0 <= i < |df.open| ==>
      (name in s.reasons[i] <==> name in df.names && StartsWith(name, "entry_") && TrueAt(df.cols[name], i))
  {
    var t := df.View();
    assert Stored(t) by {
      forall k | 0 <= k < |t.names| ensures t.names[k] in t.cols {
        assert t.names[k] in t.names;
      }
    }
    Session(df.open, t.cols[entryCol].bits, t.cols[exitCol].bits, Reasons(t, |df.open|))
  }

  /** The names that start with "entry_", in their order. */
  function EntryNames(names: seq<string>): (r: seq<string>)
    ensures forall k :: 0 <= k < |r| ==> r[k] in names
    decreases |names|
  {
    if names == [] then []
    else
      var rest := EntryNames(names[..|names| - 1]);
      var name := names[|names| - 1];
      if StartsWith(name, "entry_") then rest + [name] else rest
  }

  /** The names of `ns` whose cell at row `i` equals True, in their order. */
  function Picked(ns: seq<string>, cols: map<string, Column>, i: nat): seq<string>
    requires forall k :: 0 <= k < |ns| ==> ns[k] in cols
    decreases |ns|
  {
    if ns == [] then []
    else
      var rest := Picked(ns[..|ns| - 1], cols, i);
      if TrueAt(cols[ns[|ns| - 1]], i) then rest + [ns[|ns| - 1]] else rest
  }

  /** The entry reason is the "entry_" names, filtered by their cell. */
  lemma {:induction false} ReasonColumnsPicked(names: seq<string>, cols: map<string, Column>, i: nat)
    requires forall k :: 0 <= k < |names| ==> names[k] in cols
    ensures ReasonColumns(names, cols, i) == Picked(EntryNames(names), cols, i)
    decreases |names|
  {
    if names != [] {
      var init, name := names[..|names| - 1], names[|names| - 1];
      ReasonColumnsPicked(init, cols, i);
      if StartsWith(name, "entry_") {
        assert (EntryNames(init) + [name])[..|EntryNames(init)|] == EntryNames(init);
      }
    }
  }

  /** Picking from the same names in two maps that agree on them gives the same list. */
  lemma {:induction false} PickedAgree(ns: seq<string>, c1: map<string, Column>, c2: map<string, Column>, i: nat)
    requires forall k :: 0 <= k < |ns| ==> ns[k] in c1 && ns[k] in c2 && c1[ns[k]] == c2[ns[k]]
    ensures Picked(ns, c1, i) == Picked(ns, c2, i)
    decreases |ns|
  {
    if ns != [] {
      PickedAgree(ns[..|ns| - 1], c1, c2, i);
    }
  }

  /**
   * The entry reasons read nothing but the "entry_" columns: two frames
   * with the same "entry_" names, in the same order and with the same
   * contents, give the same reason on every row.
   */
  lemma ReasonsAgree(t1: Table, t2: Table, n: nat)
    requires Stored(t1) && Stored(t2)
    requires EntryNames(t1.names) == EntryNames(t2.names)
    requires forall k :: 0 <= k < |EntryNames(t1.names)| ==>
      var name := EntryNames(t1.names)[k];
      name in t1.cols && name in t2.cols && t1.cols[name] == t2.cols[name]
    ensures Reasons(t1, n) == Reasons(t2, n)
  {
    forall i | 0 <= i < n ensures EntryReason(t1, i) == EntryReason(t2, i) {
      ReasonColumnsPicked(t1.names, t1.cols, i);
      ReasonColumnsPicked(t2.names, t2.cols, i);
      PickedAgree(EntryNames(t1.names), t1.cols, t2.cols, i);
    }
  }

  /**
   * `run_backtest` reads only the open prices, the entry and exit columns
   * and the "entry_" columns: frames that agree on those give it the same
   * input, and so the same trades.
   */
  lemma SessionAgrees(df1: Frame, df2: Frame, entryCol: string, exitCol: string)
    requires df1.Valid() && df2.Valid()
    requires entryCol in df1.cols && df1.cols[entryCol].Flags?
    requires exitCol in df1.cols && df1.cols[exitCol].Flags?
    requires entryCol in df2.cols && df2.cols[entryCol] == df1.cols[entryCol]
    requires exitCol in df2.cols && df2.cols[exitCol] == df1.cols[exitCol]
    requires df1.open == df2.open
    requires EntryNames(df1.names) == EntryNames(df2.names)
    requires forall k :: 0 <= k < |EntryNames(df1.names)| ==>
      var name := EntryNames(df1.names)[k];
      name in df1.cols && name in df2.cols && df1.cols[name] == df2.cols[name]
    ensures SessionOf(df1, entryCol, exitCol) == SessionOf(df2, entryCol, exitCol)
  {
    var t1, t2 := df1.View(), df2.View();
    assert Stored(t1) by {
      forall k | 0 <= k < |t1.names| ensures t1.names[k] in t1.cols {
        assert t1.names[k] in t1.names;
      }
    }
    assert Stored(t2) by {
      forall k | 0 <= k < |t2.names| ensures t2.names[k] in t2.cols {
        assert t2.names[k] in t2.names;
      }
    }
    ReasonsAgree(t1, t2, |df1.open|);
  }

  /**
   * `run_backtest(df, entry_col, exit_col, stop_loss_pct, open_col)`.
   */
  method RunBacktest(df: Frame, entryCol: string, exitCol: string, stopLossPct: real) returns (trades: seq<Trade>)
    requires df.Valid()
    requires entryCol in df.cols && df.cols[entryCol].Flags?
    requires exitCol in df.cols && df.cols[exitCol].Flags?
    requires forall i :: 0 <= i < |df.open| ==> df.open[i] != 0.0
    ensures trades == Ledger(SessionOf(df, entryCol, exitCol), stopLossPct)
  {
    ghost var s := SessionOf(df, entryCol, exitCol);
    assert Length(df.cols[entryCol]) == |df.open| && Length(df.cols[exitCol]) == |df.open|;
    assert s.WellFormed();
    trades := [];
    var inPosition := false;
    var entryPrice := 0.0;
    var entryIndex := 0;
    var entryReason: seq<string> := [];
    var n := |df.open|;
    var i := 1;
    while i < n
      invariant 1 <= i && (i <= n || i == 1)
      invariant State(if inPosition then Holding(entryIndex, entryPrice, entryReason) else Flat, trades) == Run(s, stopLossPct, i)
    {
      if !inPosition && df.cols[entryCol].bits[i - 1] {
        inPosition := true;
        entryPrice := df.open[i];
        entryIndex := i;
        entryReason := EntryReason(df.View(), i);
      } else if inPosition {
        var exitSignal := df.cols[exitCol].bits[i - 1];
        var currentPrice := df.open[i];
        var priceChangePct := ((currentPrice - entryPrice) / entryPrice) * 100.0;
        var shouldExit := false;
        var exitReason := ExitSignal;
        if exitSignal {
          shouldExit := true;
          exitReason := ExitSignal;
        } else if priceChangePct <= -stopLossPct {
          shouldExit := true;
          exitReason := StopLoss;
        }
        if shouldExit {
          trades := trades + [Trade(entryIndex, i, entryPrice, currentPrice, priceChangePct, entryReason, exitReason)];
          inPosition := false;
          entryPrice := 0.0;
          entryIndex := 0;
          entryReason := [];
        }
      }
      i := i + 1;
    }
  }

  // ---------------------------------------------------------------------
  // What the ledger is, stated without the loop
  // ---------------------------------------------------------------------

  /** Bar `j` closes a position opened at bar `e`: exit signal on bar j-1, or the stop loss reached at j's open. */
  ghost predicate Triggered(s: Session, stopLossPct: real, e: nat, j: nat)
    requires s.WellFormed() && e < |s.open| && 1 <= j < |s.open|
  {
    s.exit[j - 1] || ChangePct(s.open[e], s.open[j]) <= -stopLossPct
  }

  /** After the exit at bar `lo` (0 before any trade), bar `e` is the first whose previous bar signals entry. */
  ghost predicate FirstEntry(s: Session, lo: nat, e: nat)
    requires s.WellFormed()
  {
    lo < e < |s.open| && s.entry[e - 1] && forall i :: lo <= i < e - 1 ==> !s.entry[i]
  }

  /** Bar `x` is the first bar after `e` that closes a position opened at `e`. */
  ghost predicate FirstExit(s: Session, stopLossPct: real, e: nat, x: nat)
    requires s.WellFormed() && e < |s.open|
  {
    e < x < |s.open| && Triggered(s, stopLossPct, e, x) && forall j :: e < j < x ==> !Triggered(s, stopLossPct, e, j)
  }

  /**
   * `tr` is the trade that follows the exit at bar `lo`: opened at the first
   * entry, closed at the first exit after it, at the open prices of those
   * bars, with exit reason "Exit Signal" exactly when the exit signal fired.
   */
  ghost predicate Closes(s: Session, stopLossPct: real, lo: nat, tr: Trade)
    requires s.WellFormed()
  {
    && FirstEntry(s, lo, tr.entryIndex)
    && FirstExit(s, stopLossPct, tr.entryIndex, tr.exitIndex)
    && tr.entryPrice == s.open[tr.entryIndex]
    && tr.exitPrice == s.open[tr.exitIndex]
    && tr.pnlPct == ChangePct(tr.entryPrice, tr.exitPrice)
    && tr.entryReason == s.reasons[tr.entryIndex]
    && tr.exitReason == (if s.exit[tr.exitIndex - 1] then ExitSignal else StopLoss)
  }

  /** The exit bar of the trade before the `j`-th, or 0 for the first. */
  function PrevExit(trades: seq<Trade>, j: nat): nat
    requires j <= |trades|
  {
    if j == 0 then 0 else trades[j - 1].exitIndex
  }

  /** Every trade is the one that follows its predecessor. */
  ghost predicate Explains(s: Session, stopLossPct: real, trades: seq<Trade>)
    requires s.WellFormed()
  {
    forall j {:trigger PrevExit(trades, j)} :: 0 <= j < |trades| ==> Closes(s, stopLossPct, PrevExit(trades, j), trades[j])
  }

  /**
   * After the exit at bar `lo` no trade closes: either no entry signal
   * follows, or the position it opens is still open after the last bar.
   */
  ghost predicate Dropped(s: Session, stopLossPct: real, lo: nat)
    requires s.WellFormed()
  {
    || (forall i :: lo <= i < |s.open| - 1 ==> !s.entry[i])
    || (exists e: nat :: FirstEntry(s, lo, e) && forall j :: e < j < |s.open| ==> !Triggered(s, stopLossPct, e, j))
  }

  /** The loop's position after bar k-1, given the last exit `lo`. */
  ghost predicate Pending(s: Session, stopLossPct: real, lo: nat, pos: Position, k: nat)
    requires s.WellFormed() && k <= |s.open|
  {
    match pos
    case Flat => forall i :: lo <= i < k - 1 ==> !s.entry[i]
    case Holding(e, p, r) =>
      && FirstEntry(s, lo, e) && e < k && p == s.open[e] && r == s.reasons[e]
      && forall j :: e < j < k ==> !Triggered(s, stopLossPct, e, j)
  }

  /** The loop invariant, in terms of the bars alone. */
  ghost predicate Reached(s: Session, stopLossPct: real, st: State, k: nat)
    requires s.WellFormed() && 1 <= k <= |s.open|
  {
    var lo := PrevExit(st.trades, |st.trades|);
    Explains(s, stopLossPct, st.trades) && lo < k && Pending(s, stopLossPct, lo, st.position, k)
  }

  /** Appending the trade that follows the last one keeps the ledger explained. */
  lemma ExplainsSnoc(s: Session, stopLossPct: real, trades: seq<Trade>, tr: Trade)
    requires s.WellFormed() && Explains(s, stopLossPct, trades)
    requires Closes(s, stopLossPct, PrevExit(trades, |trades|), tr)
    ensures Explains(s, stopLossPct, trades + [tr])
  {
    var u := trades + [tr];
    forall j | 0 <= j < |u| ensures Closes(s, stopLossPct, PrevExit(u, j), u[j]) {
      if j < |trades| {
        assert u[j] == trades[j] && PrevExit(u, j) == PrevExit(trades, j);
      }
    }
  }

  /** Bar `i` keeps the invariant while no position is open. */
  lemma StepFlat(s: Session, stopLossPct: real, st: State, i: nat)
    requires s.WellFormed() && 1 <= i < |s.open| && st.position.Flat?
    requires Reached(s, stopLossPct, st, i)
    ensures Reached(s, stopLossPct, Step(s, stopLossPct, st, i), i + 1)
  {
    var lo := PrevExit(st.trades, |st.trades|);
    if s.entry[i - 1] {
      assert FirstEntry(s, lo, i);
    } else {
      assert forall j :: lo <= j < i ==> !s.entry[j];
    }
  }

  /** Bar `i` keeps the invariant while a position is open and stays open. */
  lemma StepHold(s: Session, stopLossPct: real, st: State, i: nat)
    requires s.WellFormed() && 1 <= i < |s.open| && st.position.Holding? && st.position.entryPrice != 0.0
    requires Reached(s, stopLossPct, st, i)
    requires !Triggered(s, stopLossPct, st.position.entryIndex, i)
    ensures Reached(s, stopLossPct, Step(s, stopLossPct, st, i), i + 1)
  {
    assert Step(s, stopLossPct, st, i) == st;
    var e := st.position.entryIndex;
    assert forall j :: e < j < i + 1 ==> !Triggered(s, stopLossPct, e, j);
  }

  /** Bar `i` keeps the invariant when it closes the open position. */
  lemma StepClose(s: Session, stopLossPct: real, st: State, i: nat)
    requires s.WellFormed() && 1 <= i < |s.open| && st.position.Holding? && st.position.entryPrice != 0.0
    requires Reached(s, stopLossPct, st, i)
    requires Triggered(s, stopLossPct, st.position.entryIndex, i)
    ensures Reached(s, stopLossPct, Step(s, stopLossPct, st, i), i + 1)
  {
    var lo := PrevExit(st.trades, |st.trades|);
    var e := st.position.entryIndex;
    var next := Step(s, stopLossPct, st, i);
    var tr := Trade(e, i, s.open[e], s.open[i], ChangePct(s.open[e], s.open[i]), s.reasons[e],
      if s.exit[i - 1] then ExitSignal else StopLoss);
    assert next == State(Flat, st.trades + [tr]);
    assert FirstExit(s, stopLossPct, e, i);
    assert Closes(s, stopLossPct, lo, tr);
    ExplainsSnoc(s, stopLossPct, st.trades, tr);
  }

  /** Bar `i` keeps the invariant. */
  lemma StepReached(s: Session, stopLossPct: real, st: State, i: nat)
    requires s.WellFormed() && 1 <= i < |s.open|
    requires st.position.Holding? ==> st.position.entryPrice != 0.0
    requires Reached(s, stopLossPct, st, i)
    ensures Reached(s, stopLossPct, Step(s, stopLossPct, st, i), i + 1)
  {
    if st.position.Flat? {
      StepFlat(s, stopLossPct, st, i);
    } else if Triggered(s, stopLossPct, st.position.entryIndex, i) {
      StepClose(s, stopLossPct, st, i);
    } else {
      StepHold(s, stopLossPct, st, i);
    }
  }

  /** The loop invariant holds after every bar. */
  lemma {:induction false} RunReached(s: Session, stopLossPct: real, k: nat)
    requires s.WellFormed() && 1 <= k <= |s.open|
    ensures Reached(s, stopLossPct, Run(s, stopLossPct, k), k)
    decreases k
  {
    if k > 1 {
      RunReached(s, stopLossPct, k - 1);
      StepReached(s, stopLossPct, Run(s, stopLossPct, k - 1), k - 1);
    }
  }

  /** The ledger is explained, and whatever follows its last trade is dropped. */
  lemma LedgerExplained(s: Session, stopLossPct: real)
    requires s.WellFormed()
    ensures var trades := Ledger(s, stopLossPct);
      Explains(s, stopLossPct, trades) && Dropped(s, stopLossPct, PrevExit(trades, |trades|))
  {
    if |s.open| > 0 {
      RunReached(s, stopLossPct, |s.open|);
      var st := Run(s, stopLossPct, |s.open|);
      if st.position.Holding? {
        var e := st.position.entryIndex;
        assert FirstEntry(s, PrevExit(st.trades, |st.trades|), e);
      }
    }
  }

  /** At most one trade follows a given exit. */
  lemma ClosesUnique(s: Session, stopLossPct: real, lo: nat, a: Trade, b: Trade)
    requires s.WellFormed() && Closes(s, stopLossPct, lo, a) && Closes(s, stopLossPct, lo, b)
    ensures a == b
  {
    FirstEntryUnique(s, lo, a.entryIndex, b.entryIndex);
    var e := a.entryIndex;
  }

  lemma FirstEntryUnique(s: Session, lo: nat, e1: nat, e2: nat)
    requires s.WellFormed() && FirstEntry(s, lo, e1) && FirstEntry(s, lo, e2)
    ensures e1 == e2
  {
  }

  /** Two explained ledgers agree on their first `m` trades. */
  lemma {:induction false} ExplainedPrefix(s: Session, stopLossPct: real, a: seq<Trade>, b: seq<Trade>, m: nat)
    requires s.WellFormed() && Explains(s, stopLossPct, a) && Explains(s, stopLossPct, b)
    requires m <= |a| && m <= |b|
    ensures forall j :: 0 <= j < m ==> a[j] == b[j]
  {
    if m > 0 {
      ExplainedPrefix(s, stopLossPct, a, b, m - 1);
      var lo := PrevExit(a, m - 1);
      assert lo == PrevExit(b, m - 1) by {
        if m > 1 {
          assert a[m - 2] == b[m - 2];
        }
      }
      assert Closes(s, stopLossPct, lo, a[m - 1]);
      assert Closes(s, stopLossPct, lo, b[m - 1]);
      ClosesUnique(s, stopLossPct, lo, a[m - 1], b[m - 1]);
    }
  }

  /** No exit inside an explained ledger leaves a dropped tail. */
  lemma ExplainedNotDropped(s: Session, stopLossPct: real, b: seq<Trade>)
    requires s.WellFormed() && Explains(s, stopLossPct, b)
    ensures forall m :: 0 <= m < |b| ==> !Dropped(s, stopLossPct, PrevExit(b, m))
  {
    forall m | 0 <= m < |b| ensures !Dropped(s, stopLossPct, PrevExit(b, m)) {
      DroppedNoTrade(s, stopLossPct, PrevExit(b, m), b[m]);
    }
  }

  /** An explained ledger ending in a dropped tail cannot be extended. */
  lemma NotLonger(s: Session, stopLossPct: real, a: seq<Trade>, b: seq<Trade>)
    requires s.WellFormed() && Explains(s, stopLossPct, a) && Dropped(s, stopLossPct, PrevExit(a, |a|))
    requires Explains(s, stopLossPct, b) && |a| <= |b|
    requires forall j :: 0 <= j < |a| ==> a[j] == b[j]
    ensures |a| == |b|
  {
    ExplainedNotDropped(s, stopLossPct, b);
    assert PrevExit(a, |a|) == PrevExit(b, |a|);
  }

  /** Two explained ledgers that both end in a dropped tail are the same ledger. */
  lemma ExplainedUnique(s: Session, stopLossPct: real, a: seq<Trade>, b: seq<Trade>)
    requires s.WellFormed()
    requires Explains(s, stopLossPct, a) && Dropped(s, stopLossPct, PrevExit(a, |a|))
    requires Explains(s, stopLossPct, b) && Dropped(s, stopLossPct, PrevExit(b, |b|))
    ensures a == b
  {
    if |a| <= |b| {
      ExplainedPrefix(s, stopLossPct, a, b, |a|);
      NotLonger(s, stopLossPct, a, b);
    } else {
      ExplainedPrefix(s, stopLossPct, b, a, |b|);
      NotLonger(s, stopLossPct, b, a);
    }
  }

  /** A trade that follows the exit at bar `lo` means the tail after `lo` is not dropped. */
  lemma DroppedNoTrade(s: Session, stopLossPct: real, lo: nat, tr: Trade)
    requires s.WellFormed()
    ensures Closes(s, stopLossPct, lo, tr) ==> !Dropped(s, stopLossPct, lo)
  {
  }

  /**
   * The ledger is exactly the list of trades in which each trade follows the
   * previous one and after the last nothing closes.
   */
  lemma LedgerCharacterized(s: Session, stopLossPct: real, trades: seq<Trade>)
    requires s.WellFormed()
    ensures trades == Ledger(s, stopLossPct) <==>
      Explains(s, stopLossPct, trades) && Dropped(s, stopLossPct, PrevExit(trades, |trades|))
  {
    LedgerExplained(s, stopLossPct);
    if Explains(s, stopLossPct, trades) && Dropped(s, stopLossPct, PrevExit(trades, |trades|)) {
      ExplainedUnique(s, stopLossPct, trades, Ledger(s, stopLossPct));
    }
  }

  /** The rules of `run_backtest` for one trade, read off the bars. */
  ghost predicate ObeysRules(s: Session, stopLossPct: real, tr: Trade)
    requires s.WellFormed()
  {
    && 1 <= tr.entryIndex < tr.exitIndex < |s.open|
    && s.entry[tr.entryIndex - 1]
    && tr.entryPrice == s.open[tr.entryIndex]
    && tr.entryReason == s.reasons[tr.entryIndex]
    && tr.exitPrice == s.open[tr.exitIndex]
    && tr.pnlPct == ChangePct(tr.entryPrice, tr.exitPrice)
    && (tr.exitReason == ExitSignal <==> s.exit[tr.exitIndex - 1])
    && (tr.exitReason == StopLoss ==> tr.pnlPct <= -stopLossPct)
    && (forall j :: tr.entryIndex < j < tr.exitIndex ==> !Triggered(s, stopLossPct, tr.entryIndex, j))
  }

  /**
   * Every trade of the ledger enters at the open after an entry signal, leaves
   * at the first open after it where the exit signal fired on the bar before or
   * the loss reached the stop, and reports "Exit Signal" whenever that signal fired.
   */
  lemma LedgerTrades(s: Session, stopLossPct: real)
    requires s.WellFormed()
    ensures forall tr :: tr in Ledger(s, stopLossPct) ==> ObeysRules(s, stopLossPct, tr)
  {
    var trades := Ledger(s, stopLossPct);
    LedgerExplained(s, stopLossPct);
    forall tr | tr in trades ensures ObeysRules(s, stopLossPct, tr) {
      var k :| 0 <= k < |trades| && trades[k] == tr;
      assert Closes(s, stopLossPct, PrevExit(trades, k), tr);
    }
  }

  /** Trades come in bar order and never overlap; so at most (bars-1)/2 of them fit. */
  lemma LedgerOrdered(s: Session, stopLossPct: real)
    requires s.WellFormed()
    ensures var trades := Ledger(s, stopLossPct);
      && (forall k :: 0 <= k < |trades| - 1 ==> trades[k].exitIndex < trades[k + 1].entryIndex)
      && (trades == [] || 2 * |trades| + 1 <= |s.open|)
  {
    var trades := Ledger(s, stopLossPct);
    LedgerExplained(s, stopLossPct);
    forall k | 0 <= k < |trades| - 1 ensures trades[k].exitIndex < trades[k + 1].entryIndex {
      assert Closes(s, stopLossPct, PrevExit(trades, k + 1), trades[k + 1]);
    }
    if trades != [] {
      ExitsSpread(s, stopLossPct, trades, |trades| - 1);
      assert Closes(s, stopLossPct, PrevExit(trades, |trades| - 1), trades[|trades| - 1]);
    }
  }

  /** The `k`-th trade cannot close before bar 2k+2: each trade needs an entry bar and a later exit bar. */
  lemma {:induction false} ExitsSpread(s: Session, stopLossPct: real, trades: seq<Trade>, k: nat)
    requires s.WellFormed() && Explains(s, stopLossPct, trades) && k < |trades|
    ensures trades[k].exitIndex >= 2 * k + 2
  {
    assert Closes(s, stopLossPct, PrevExit(trades, k), trades[k]);
    if k > 0 {
      ExitsSpread(s, stopLossPct, trades, k - 1);
    }
  }

  /** Without a single entry signal there is no trade. */
  lemma NoEntryNoTrades(s: Session, stopLossPct: real)
    requires s.WellFormed() && forall i :: 0 <= i < |s.entry| ==> !s.entry[i]
    ensures Ledger(s, stopLossPct) == []
  {
    LedgerCharacterized(s, stopLossPct, []);
  }

  /**
   * Opens 100, 102, 104, 90, 95 with an entry signal on the first bar only and
   * a 5% stop: the position opened at 102 is stopped out at 90, the one bar
   * whose loss exceeds 5%.
   */
  lemma StopLossExample(reasons: seq<seq<string>>)
    requires |reasons| == 5
    ensures Ledger(Session([100.0, 102.0, 104.0, 90.0, 95.0], [true, false, false, false, false],
                           [false, false, false, false, false], reasons), 5.0)
         == [Trade(1, 3, 102.0, 90.0, ChangePct(102.0, 90.0), reasons[1], StopLoss)]
  {
  }

  /**
   * When the exit signal fires on the bar before a bar that also breaches the
   * stop, the trade is reported as an exit signal.
   */
  lemma ExitSignalFirstExample(reasons: seq<seq<string>>)
    requires |reasons| == 3
    ensures Ledger(Session([100.0, 100.0, 80.0], [true, false, false], [false, true, false], reasons), 5.0)
         == [Trade(1, 2, 100.0, 80.0, -20.0, reasons[1], ExitSignal)]
  {
  }

  /** A position still open after the last bar is not reported. */
  lemma OpenPositionDroppedExample(reasons: seq<seq<string>>)
    requires |reasons| == 3
    ensures Ledger(Session([100.0, 101.0, 102.0], [true, false, false], [false, false, false], reasons), 5.0) == []
  {
  }
}
