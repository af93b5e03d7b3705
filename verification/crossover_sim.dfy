/** The crossover signal simulation: a BUY where the 20-day average
    crosses above the 50-day one with RSI below 70, a SELL where it
    crosses below with RSI above 30; rows without a signal are dropped,
    repeats of the previous signal are dropped, each kept signal is
    paired with the return to the next kept signal's close, and the
    returns are summed with the sign of their signal. A missing value
    (pandas' NaN) is `None`, and adding it to a number gives `None`. */
module CrossoverSim {
  import opened Wrappers

  const RsiBuyThreshold: real := 70.0
  const RsiSellThreshold: real := 30.0

  /** One row of the prepared data. */
  datatype Row = Row(sma20: real, sma50: real, rsi: real, close: real)

  datatype Side = Buy | Sell

  /** A row that carries a signal: its side and its close. */
  datatype Signal = Signal(side: Side, close: real)

  predicate BuyAt(prev: Row, cur: Row) {
    prev.sma20 < prev.sma50 && cur.sma20 > cur.sma50 && cur.rsi < RsiBuyThreshold
  }

  predicate SellAt(prev: Row, cur: Row) {
    prev.sma20 > prev.sma50 && cur.sma20 < cur.sma50 && cur.rsi > RsiSellThreshold
  }

  /** The `Signal` column at row `i`. The first row has no previous
      averages, and a comparison with a missing value is false. The SELL
      assignment runs second, but the two conditions never hold together. */
  function SignalAt(rows: seq<Row>, i: nat): (r: Option<Side>)
    requires i < |rows|
    ensures r == Some(Buy) <==> i > 0 && BuyAt(rows[i - 1], rows[i])
    ensures r == Some(Sell) <==> i > 0 && SellAt(rows[i - 1], rows[i])
    ensures i == 0 ==> r.None?
  {
    if i == 0 then None
    else if SellAt(rows[i - 1], rows[i]) then Some(Sell)
    else if BuyAt(rows[i - 1], rows[i]) then Some(Buy)
    else None
  }

  /** `y` is the signal of one of the first `n` rows, at that row's close. */
  predicate FromRow(rows: seq<Row>, n: nat, y: Signal)
    requires n <= |rows|
  {
    exists i :: 0 <= i < n && SignalAt(rows, i) == Some(y.side) && rows[i].close == y.close
  }

  lemma FromEarlierRow(rows: seq<Row>, n: nat, m: nat, y: Signal)
    requires n <= m <= |rows| && FromRow(rows, n, y)
    ensures FromRow(rows, m, y)
  {
  }

  /** `df[df["Signal"] != ""]` over the first `n` rows. */
  function Extract(rows: seq<Row>, n: nat): (r: seq<Signal>)
    requires n <= |rows|
    ensures |r| <= n
  {
    if n == 0 then []
    else
      var before := Extract(rows, n - 1);
      var here := SignalAt(rows, n - 1);
      if here.Some? then before + [Signal(here.value, rows[n - 1].close)] else before
  }

  /** Every extracted signal is the signal of one of the rows, at that
      row's close. */
  lemma {:induction false} ExtractSound(rows: seq<Row>, n: nat)
    requires n <= |rows|
    ensures forall k :: 0 <= k < |Extract(rows, n)| ==> FromRow(rows, n, Extract(rows, n)[k])
  {
    if n > 0 {
      ExtractSound(rows, n - 1);
      var before := Extract(rows, n - 1);
      var r := Extract(rows, n);
      var here := SignalAt(rows, n - 1);
      forall k | 0 <= k < |r|
        ensures FromRow(rows, n, r[k])
      {
        if k < |before| {
          assert r[k] == before[k];
          FromEarlierRow(rows, n - 1, n, before[k]);
        } else {
          assert r[k] == Signal(here.value, rows[n - 1].close);
        }
      }
    }
  }

  /** Every row with a signal contributes it. */
  lemma {:induction false} ExtractComplete(rows: seq<Row>, n: nat)
    requires n <= |rows|
    ensures forall i :: 0 <= i < n && SignalAt(rows, i).Some? ==>
              Signal(SignalAt(rows, i).value, rows[i].close) in Extract(rows, n)
  {
    if n > 0 {
      ExtractComplete(rows, n - 1);
      var before := Extract(rows, n - 1);
      assert forall y :: y in before ==> y in Extract(rows, n);
    }
  }

  /** The signal a row carries, at its close. */
  function SignalOf(rows: seq<Row>, i: nat): Signal
    requires i < |rows| && SignalAt(rows, i).Some?
  {
    Signal(SignalAt(rows, i).value, rows[i].close)
  }

  /** The indices of the first `n` rows that carry a signal, in increasing
      order: the reference for which rows the filter keeps. */
  function SignalRows(rows: seq<Row>, n: nat): (ks: seq<nat>)
    requires n <= |rows|
    ensures forall j :: 0 <= j < |ks| ==> ks[j] < n && SignalAt(rows, ks[j]).Some?
    ensures forall j, j' :: 0 <= j < j' < |ks| ==> ks[j] < ks[j']
    ensures forall i :: 0 <= i < n && SignalAt(rows, i).Some? ==> i in ks
  {
    if n == 0 then []
    else SignalRows(rows, n - 1) + (if SignalAt(rows, n - 1).Some? then [n - 1] else [])
  }

  /** The filter keeps exactly the signalled rows, in row order: its j-th
      signal is that of the j-th signalled row. */
  lemma {:induction false} ExtractInRowOrder(rows: seq<Row>, n: nat)
    requires n <= |rows|
    ensures |Extract(rows, n)| == |SignalRows(rows, n)|
    ensures forall j :: 0 <= j < |SignalRows(rows, n)| ==> Extract(rows, n)[j] == SignalOf(rows, SignalRows(rows, n)[j])
  {
    if n > 0 {
      ExtractInRowOrder(rows, n - 1);
    }
  }

  /** Over priced rows every extracted signal carries a positive close. */
  lemma ExtractPriced(rows: seq<Row>, n: nat)
    requires n <= |rows| && Priced(rows)
    ensures forall y :: y in Extract(rows, n) ==> y.close > 0.0
  {
    ExtractSound(rows, n);
    forall y | y in Extract(rows, n)
      ensures y.close > 0.0
    {
      var k :| 0 <= k < |Extract(rows, n)| && Extract(rows, n)[k] == y;
      assert FromRow(rows, n, y);
      var i :| 0 <= i < n && SignalAt(rows, i) == Some(y.side) && rows[i].close == y.close;
    }
  }

  predicate Priced(rows: seq<Row>) {
    forall k :: 0 <= k < |rows| ==> rows[k].close > 0.0
  }

  function AllSignals(rows: seq<Row>): seq<Signal> {
    Extract(rows, |rows|)
  }

  // ---------------------------------------------------------------------------
  // Dropping repeated signals
  // ---------------------------------------------------------------------------

  /** `signals[signals["Signal"] != signals["Signal"].shift()]`: a signal is
      kept when it is the first one or differs from the signal before it. */
  function Dedup(xs: seq<Signal>): (r: seq<Signal>)
    ensures |r| <= |xs|
    ensures r == [] <==> xs == []
    ensures xs != [] ==> r[0] == xs[0] && r[|r| - 1].side == xs[|xs| - 1].side
    ensures forall k :: 0 <= k < |r| ==> r[k] in xs
  {
    if |xs| <= 1 then xs
    else
      var init := Dedup(xs[..|xs| - 1]);
      var x := xs[|xs| - 1];
      assert forall k :: 0 <= k < |init| ==> init[k] in xs by {
        assert forall y :: y in xs[..|xs| - 1] ==> y in xs;
      }
      if xs[|xs| - 2].side == x.side then init
      else
        var r := init + [x];
        assert r[0] == init[0];
        r
  }

  /** No two neighbouring signals are the same. */
  predicate NoRepeats(ys: seq<Signal>) {
    forall k :: 0 < k < |ys| ==> ys[k].side != ys[k - 1].side
  }

  lemma {:induction false} DedupNoRepeats(xs: seq<Signal>)
    ensures NoRepeats(Dedup(xs))
    decreases |xs|
  {
    if |xs| > 1 {
      DedupNoRepeats(xs[..|xs| - 1]);
    }
  }

  /** A list without repeats is left as it is, so dropping repeats twice
      is dropping them once. */
  lemma {:induction false} DedupKeepsNoRepeats(ys: seq<Signal>)
    requires NoRepeats(ys)
    ensures Dedup(ys) == ys
    decreases |ys|
  {
    if |ys| > 1 {
      var init := ys[..|ys| - 1];
      assert NoRepeats(init);
      DedupKeepsNoRepeats(init);
      assert init + [ys[|ys| - 1]] == ys;
    }
  }

  lemma DedupIdempotent(xs: seq<Signal>)
    ensures Dedup(Dedup(xs)) == Dedup(xs)
  {
    DedupNoRepeats(xs);
    DedupKeepsNoRepeats(Dedup(xs));
  }

  /** Position `k` starts a run of equal sides. */
  predicate RunStart(xs: seq<Signal>, k: nat)
    requires k < |xs|
  {
    k == 0 || xs[k].side != xs[k - 1].side
  }

  /** The positions where a run of equal sides starts, in increasing order:
      the reference for which signals de-duplication keeps. */
  function RunStarts(xs: seq<Signal>): (ks: seq<nat>)
    ensures forall j :: 0 <= j < |ks| ==> ks[j] < |xs|
  {
    if |xs| == 0 then []
    else RunStarts(xs[..|xs| - 1]) + (if RunStart(xs, |xs| - 1) then [|xs| - 1] else [])
  }

  /** `RunStarts` lists run starts only, in increasing order, and all of them. */
  lemma {:induction false} RunStartsExact(xs: seq<Signal>)
    ensures forall j :: 0 <= j < |RunStarts(xs)| ==> RunStart(xs, RunStarts(xs)[j])
    ensures forall j, j' :: 0 <= j < j' < |RunStarts(xs)| ==> RunStarts(xs)[j] < RunStarts(xs)[j']
    ensures forall k :: 0 <= k < |xs| && RunStart(xs, k) ==> k in RunStarts(xs)
    decreases |xs|
  {
    if |xs| > 0 {
      var init := xs[..|xs| - 1];
      RunStartsExact(init);
      assert forall k :: 0 <= k < |init| ==> (RunStart(init, k) <==> RunStart(xs, k));
    }
  }

  /** One more signal is kept iff it starts a run. */
  lemma DedupSnoc(xs: seq<Signal>)
    requires |xs| > 1
    ensures Dedup(xs) == if RunStart(xs, |xs| - 1) then Dedup(xs[..|xs| - 1]) + [xs[|xs| - 1]] else Dedup(xs[..|xs| - 1])
  {
  }

  /** De-duplication keeps the first signal of every run and nothing else,
      in order: its j-th signal is the one at the j-th run start. */
  lemma {:induction false} DedupKeepsRunStarts(xs: seq<Signal>)
    ensures |Dedup(xs)| == |RunStarts(xs)|
    ensures forall j :: 0 <= j < |RunStarts(xs)| ==> Dedup(xs)[j] == xs[RunStarts(xs)[j]]
    decreases |xs|
  {
    if |xs| > 1 {
      var n := |xs|;
      var init := xs[..n - 1];
      DedupKeepsRunStarts(init);
      DedupSnoc(xs);
      var d, ks := Dedup(init), RunStarts(init);
      forall j | 0 <= j < |ks|
        ensures ks[j] < n && d[j] == xs[ks[j]]
      {
        assert d[j] == init[ks[j]];
      }
      var extra := RunStart(xs, n - 1);
      assert RunStarts(xs) == if extra then ks + [n - 1] else ks;
      PairedSnoc(d, ks, xs, extra);
    }
  }

  /** Kept signals paired with their positions stay paired when the last
      signal and its position are appended together. */
  lemma PairedSnoc(d: seq<Signal>, ks: seq<nat>, xs: seq<Signal>, extra: bool)
    requires |xs| > 0 && |d| == |ks|
    requires forall j :: 0 <= j < |ks| ==> ks[j] < |xs| && d[j] == xs[ks[j]]
    ensures var d2 := if extra then d + [xs[|xs| - 1]] else d;
            var ks2 := if extra then ks + [|xs| - 1] else ks;
            |d2| == |ks2| && forall j :: 0 <= j < |ks2| ==> d2[j] == xs[ks2[j]]
  {
    if extra {
      var d2, ks2 := d + [xs[|xs| - 1]], ks + [|xs| - 1];
      forall j | 0 <= j < |ks2|
        ensures d2[j] == xs[ks2[j]]
      {
        if j < |ks| {
          assert d2[j] == d[j] && ks2[j] == ks[j];
        }
      }
    }
  }

  /** Of two SELLs in a row, the first is kept, with its close. */
  lemma FirstOfRunKept()
    ensures Dedup([Signal(Buy, 1.0), Signal(Sell, 2.0), Signal(Sell, 3.0)]) == [Signal(Buy, 1.0), Signal(Sell, 2.0)]
  {
    assert [Signal(Buy, 1.0), Signal(Sell, 2.0), Signal(Sell, 3.0)][..2] == [Signal(Buy, 1.0), Signal(Sell, 2.0)];
    assert [Signal(Buy, 1.0), Signal(Sell, 2.0)][..1] == [Signal(Buy, 1.0)];
  }

  function Other(s: Side): Side {
    if s == Buy then Sell else Buy
  }

  /** With only two kinds of signal, a list without repeats alternates
      from its first signal. */
  lemma {:induction false} NoRepeatsAlternate(ys: seq<Signal>, k: nat)
    requires NoRepeats(ys) && k < |ys|
    ensures ys[k].side == (if k % 2 == 0 then ys[0].side else Other(ys[0].side))
  {
    if k > 0 {
      NoRepeatsAlternate(ys, k - 1);
    }
  }

  // ---------------------------------------------------------------------------
  // Returns and gain
  // ---------------------------------------------------------------------------

  /** `Return`: the kept signal's close against the next kept signal's
      close; the last one has no next and gets a missing value. */
  function Returns(ys: seq<Signal>): (r: seq<Option<real>>)
    requires forall k :: 0 <= k < |ys| ==> ys[k].close > 0.0
    ensures |r| == |ys|
    ensures forall k :: 0 <= k < |ys| ==> (r[k].None? <==> k == |ys| - 1)
  {
    seq(|ys|, k requires 0 <= k < |ys| =>
      if k + 1 < |ys| then Some(ys[k + 1].close / ys[k].close - 1.0) else None)
  }

  /** Each present return is the relative move from one kept close to the
      next: one plus the return, times this close, is the next close. */
  lemma ReturnGrowth(ys: seq<Signal>, k: nat)
    requires forall j :: 0 <= j < |ys| ==> ys[j].close > 0.0
    requires k + 1 < |ys|
    ensures Returns(ys)[k].Some?
    ensures (Returns(ys)[k].value + 1.0) * ys[k].close == ys[k + 1].close
  {
    var a, b := ys[k].close, ys[k + 1].close;
    assert Returns(ys)[k].value == b / a - 1.0;
    DivGrowth(a, b);
  }

  lemma DivGrowth(a: real, b: real)
    requires a > 0.0
    ensures (b / a - 1.0 + 1.0) * a == b
  {
  }

  function Direction(s: Side): real {
    if s == Buy then 1.0 else -1.0
  }

  /** The loop of `ganancia_total` as written: add a BUY's return, subtract
      a SELL's, and a missing return makes the total missing. */
  function GainAsWritten(sides: seq<Side>, rets: seq<Option<real>>): (g: Option<real>)
    requires |sides| == |rets|
    ensures g.Some? <==> forall k :: 0 <= k < |rets| ==> rets[k].Some?
  {
    if |sides| == 0 then Some(0.0)
    else
      var rest := GainAsWritten(sides[1..], rets[1..]);
      assert rest.Some? <==> forall k :: 1 <= k < |rets| ==> rets[k].Some? by {
        assert forall k :: 1 <= k < |rets| ==> rets[1..][k - 1] == rets[k];
      }
      match rets[0]
      case None => None
      case Some(x) => if rest.None? then None else Some(Direction(sides[0]) * x + rest.value)
  }

  /** The evidently intended gain: the same signed sum with missing returns
      left out, as pandas' own `mean()` on the next line does. */
  function Gain(sides: seq<Side>, rets: seq<Option<real>>): real
    requires |sides| == |rets|
  {
    if |sides| == 0 then 0.0
    else (match rets[0] case None => 0.0 case Some(x) => Direction(sides[0]) * x) + Gain(sides[1..], rets[1..])
  }

  /** One signal: its return with the sign of its side, nothing when the
      return is missing... */
  lemma GainOne(s: Side, x: Option<real>)
    ensures Gain([s], [x]) == match x
      case None => 0.0
      case Some(v) => if s == Buy then v else -v
  {
    assert Gain([s][1..], [x][1..]) == 0.0;
  }

  /** ...and the gains of consecutive signals add up. */
  lemma {:induction false} GainAppend(s1: seq<Side>, r1: seq<Option<real>>, s2: seq<Side>, r2: seq<Option<real>>)
    requires |s1| == |r1| && |s2| == |r2|
    ensures Gain(s1 + s2, r1 + r2) == Gain(s1, r1) + Gain(s2, r2)
    decreases |s1|
  {
    if |s1| == 0 {
      assert s1 + s2 == s2 && r1 + r2 == r2;
    } else {
      assert (s1 + s2)[0] == s1[0] && (s1 + s2)[1..] == s1[1..] + s2;
      assert (r1 + r2)[0] == r1[0] && (r1 + r2)[1..] == r1[1..] + r2;
      GainAppend(s1[1..], r1[1..], s2, r2);
    }
  }

  /** Where the loop as written gives a number at all, it is the corrected gain. */
  lemma {:induction false} GainAgrees(sides: seq<Side>, rets: seq<Option<real>>)
    requires |sides| == |rets|
    ensures GainAsWritten(sides, rets).Some? ==> GainAsWritten(sides, rets).value == Gain(sides, rets)
  {
    if |sides| > 0 {
      GainAgrees(sides[1..], rets[1..]);
    }
  }

  /** Leaving out a missing return changes nothing in the corrected gain:
      it is the written loop run without the last signal. */
  lemma {:induction false} GainDropsLast(sides: seq<Side>, rets: seq<Option<real>>)
    requires |sides| == |rets| && |rets| > 0 && rets[|rets| - 1].None?
    ensures Gain(sides, rets) == Gain(sides[..|sides| - 1], rets[..|rets| - 1])
  {
    if |sides| > 1 {
      assert sides[1..][..|sides| - 2] == sides[..|sides| - 1][1..];
      assert rets[1..][..|rets| - 2] == rets[..|rets| - 1][1..];
      GainDropsLast(sides[1..], rets[1..]);
    }
  }

  function Sides(ys: seq<Signal>): (s: seq<Side>)
    ensures |s| == |ys| && forall k :: 0 <= k < |ys| ==> s[k] == ys[k].side
  {
    seq(|ys|, k requires 0 <= k < |ys| => ys[k].side)
  }

  /** The intended total, read off the kept signals directly: each signal
      but the last earns the relative move to the next close, added after a
      BUY and subtracted after a SELL. */
  function PairGain(ys: seq<Signal>): real
    requires forall k :: 0 <= k < |ys| ==> ys[k].close > 0.0
  {
    if |ys| < 2 then 0.0
    else Direction(ys[0].side) * (ys[1].close / ys[0].close - 1.0) + PairGain(ys[1..])
  }

  /** Returns and the corrected gain compute that total. */
  lemma {:induction false} GainIsPairGain(ys: seq<Signal>)
    requires forall k :: 0 <= k < |ys| ==> ys[k].close > 0.0
    ensures Gain(Sides(ys), Returns(ys)) == PairGain(ys)
  {
    if |ys| == 1 {
      assert Gain(Sides(ys)[1..], Returns(ys)[1..]) == 0.0;
    } else if |ys| > 1 {
      var rest := ys[1..];
      GainIsPairGain(rest);
      assert Sides(ys)[1..] == Sides(rest);
      assert Returns(ys)[1..] == Returns(rest);
      assert Returns(ys)[0] == Some(ys[1].close / ys[0].close - 1.0);
    }
  }

  /** The total as written is a number exactly when no signal is kept. */
  lemma AsWrittenDefinedIffNoSignal(ys: seq<Signal>)
    requires forall y :: y in ys ==> y.close > 0.0
    ensures GainAsWritten(Sides(ys), Returns(ys)).Some? <==> ys == []
  {
    if ys != [] {
      var rets := Returns(ys);
      assert rets[|ys| - 1].None?;
    }
  }

  /** The whole pipeline of the script over its rows: the kept signals,
      the total as written and the corrected total. */
  function Simulate(rows: seq<Row>): (r: (seq<Signal>, Option<real>, real))
    requires Priced(rows)
    ensures NoRepeats(r.0)
    ensures r.1.Some? <==> r.0 == []
    ensures r.1.Some? ==> r.1.value == r.2
    ensures forall k :: 0 <= k < |r.0| ==> r.0[k].close > 0.0
    ensures r.2 == PairGain(r.0)
  {
    var xs := AllSignals(rows);
    ExtractPriced(rows, |rows|);
    var ys := Dedup(xs);
    DedupNoRepeats(xs);
    assert forall y :: y in ys ==> y.close > 0.0;
    assert forall k :: 0 <= k < |ys| ==> ys[k].close > 0.0;
    var rets := Returns(ys);
    AsWrittenDefinedIffNoSignal(ys);
    GainAgrees(Sides(ys), rets);
    GainIsPairGain(ys);
    (ys, GainAsWritten(Sides(ys), rets), Gain(Sides(ys), rets))
  }

  /** Two rows whose averages cross upwards on the second, with a neutral
      RSI. */
  const CrossingRows: seq<Row> := [Row(1.0, 2.0, 50.0, 100.0), Row(3.0, 2.0, 50.0, 110.0)]

  /** The two rows give one BUY signal, at the second close. */
  lemma CrossingRowsSignal()
    ensures Priced(CrossingRows)
    ensures AllSignals(CrossingRows) == [Signal(Buy, 110.0)]
  {
    var rows := CrossingRows;
    assert SignalAt(rows, 1) == Some(Buy) by {
      assert BuyAt(rows[0], rows[1]) && !SellAt(rows[0], rows[1]);
    }
    assert Extract(rows, 0) == [];
    assert Extract(rows, 1) == [];
  }

  /** The discrepancy: as soon as one signal is kept, the total as written
      is missing, because the last kept signal's return always is. Two
      crossing rows make the smallest such input. */
  lemma GainAsWrittenIsMissing()
    ensures Priced(CrossingRows)
    ensures Simulate(CrossingRows).0 == [Signal(Buy, 110.0)]
    ensures Simulate(CrossingRows).1.None?
    ensures Simulate(CrossingRows).2 == 0.0
  {
    CrossingRowsSignal();
    var ys := [Signal(Buy, 110.0)];
    assert Dedup(ys) == ys;
    var rets := Returns(ys);
    assert rets == [None] by {
      assert |rets| == 1 && rets[0].None?;
    }
    assert Sides(ys) == [Buy];
    assert Gain([Buy], [None]) == 0.0 by {
      assert Gain([Buy][1..], [None][1..]) == 0.0;
    }
  }
}
