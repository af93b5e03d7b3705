/** The performance analyzer: replays the Buy and Sell events of the paper
    trading log into a cash balance, a trade list and an equity history,
    then computes win rate, profit factor, average win and loss and net
    profit. Reading and parsing the log lines is left out: the replay starts
    from the already parsed events. */
module Performance {
  import opened Wrappers

  const InitialCapital: real := 1000.0

  /** Every buy is assumed to have spent this much. */
  const AssumedBuyValue: real := 20.0

  /** A parsed log line: a buy at a price, or a sell at a price with its P&L in dollars. */
  datatype Event = Buy(price: real) | Sell(price: real, pnl: real)

  /** An entry of the `trades` list; a closed trade carries its P&L in percent. */
  datatype Trade = Opened(price: real) | Closed(price: real, pnlPercent: real)

  /** The state of the replay loop. */
  datatype Replay = Replay(cash: real, lastBuyValue: real, trades: seq<Trade>, history: seq<real>)

  const Start: Replay := Replay(InitialCapital, 0.0, [], [InitialCapital])

  predicate HasBuy(trades: seq<Trade>) {
    exists k :: 0 <= k < |trades| && trades[k].Opened?
  }

  /** What holds of every state the loop reaches: the history is never
      empty, and once a buy is recorded the last buy value is 20. */
  predicate Reachable(r: Replay) {
    |r.history| > 0 && (HasBuy(r.trades) ==> r.lastBuyValue == AssumedBuyValue)
  }

  /** One line of the loop. A sell moves cash even when no buy precedes it,
      but is recorded (and extends the history) only after a buy. */
  function Apply(r: Replay, e: Event): (r': Replay)
    requires Reachable(r)
    ensures Reachable(r')
    ensures e.Buy? ==> r'.cash == r.cash - AssumedBuyValue && r'.history == r.history
                       && r'.trades == r.trades + [Opened(e.price)]
    ensures e.Sell? ==> r'.cash == r.cash + r.lastBuyValue + e.pnl
    ensures e.Sell? && HasBuy(r.trades) ==>
              r'.trades == r.trades + [Closed(e.price, e.pnl / AssumedBuyValue * 100.0)]
              && r'.history == r.history + [r'.cash]
    ensures e.Sell? && !HasBuy(r.trades) ==> r'.trades == r.trades && r'.history == r.history
  {
    match e
    case Buy(price) =>
      var trades := r.trades + [Opened(price)];
      assert trades[|r.trades|].Opened?;
      Replay(r.cash - AssumedBuyValue, AssumedBuyValue, trades, r.history)
    case Sell(price, pnl) =>
      var cash := r.cash + r.lastBuyValue + pnl;
      if HasBuy(r.trades) then
        var trades := r.trades + [Closed(price, pnl / r.lastBuyValue * 100.0)];
        assert HasBuy(trades) by {
          var k :| 0 <= k < |r.trades| && r.trades[k].Opened?;
          assert trades[k] == r.trades[k];
        }
        Replay(cash, r.lastBuyValue, trades, r.history + [cash])
      else
        Replay(cash, r.lastBuyValue, r.trades, r.history)
  }

  /** The loop over the lines of the log, from state `r`. */
  function ReplayFrom(r: Replay, events: seq<Event>): (r': Replay)
    requires Reachable(r)
    ensures Reachable(r')
    decreases |events|
  {
    if |events| == 0 then r else ReplayFrom(Apply(r, events[0]), events[1..])
  }

  /** Replaying a longer log is replaying its prefix, then the last line. */
  lemma {:induction false} ReplaySnoc(r: Replay, events: seq<Event>, e: Event)
    requires Reachable(r)
    ensures ReplayFrom(r, events + [e]) == Apply(ReplayFrom(r, events), e)
    decreases |events|
  {
    if |events| == 0 {
      assert events + [e] == [e];
    } else {
      assert (events + [e])[1..] == events[1..] + [e];
      ReplaySnoc(Apply(r, events[0]), events[1..], e);
    }
  }

  /** Replaying two logs one after the other is replaying their concatenation. */
  lemma {:induction false} ReplayAppend(r: Replay, a: seq<Event>, b: seq<Event>)
    requires Reachable(r)
    ensures ReplayFrom(r, a + b) == ReplayFrom(ReplayFrom(r, a), b)
    decreases |a|
  {
    if |a| == 0 {
      assert a + b == b;
    } else {
      assert (a + b)[1..] == a[1..] + b;
      ReplayAppend(Apply(r, a[0]), a[1..], b);
    }
  }

  /** Number of buys and sum of the P&L of the sells in a log. */
  function Buys(events: seq<Event>): (n: nat)
    ensures n <= |events|
  {
    if |events| == 0 then 0 else (if events[0].Buy? then 1 else 0) + Buys(events[1..])
  }

  function SellPnl(events: seq<Event>): real {
    if |events| == 0 then 0.0 else (if events[0].Sell? then events[0].pnl else 0.0) + SellPnl(events[1..])
  }

  function Sells(events: seq<Event>): (n: nat)
    ensures n <= |events|
  {
    if |events| == 0 then 0 else (if events[0].Sell? then 1 else 0) + Sells(events[1..])
  }

  /** Once a buy has been seen, the replayed cash is the starting cash, minus
      20 per buy, plus 20 and the P&L per sell. */
  lemma {:induction false} CashAfterBuy(r: Replay, events: seq<Event>)
    requires Reachable(r) && HasBuy(r.trades)
    ensures ReplayFrom(r, events).cash
            == r.cash - AssumedBuyValue * Buys(events) as real
               + AssumedBuyValue * Sells(events) as real + SellPnl(events)
    decreases |events|
  {
    if |events| > 0 {
      var r1 := Apply(r, events[0]);
      assert HasBuy(r1.trades) by {
        var k :| 0 <= k < |r.trades| && r.trades[k].Opened?;
        assert r1.trades[k] == r.trades[k];
      }
      CashAfterBuy(r1, events[1..]);
    }
  }

  // ---------------------------------------------------------------------------
  // Metrics
  // ---------------------------------------------------------------------------

  /** The P&L percentages of the closed trades, in order. */
  function ClosedPercents(trades: seq<Trade>): (ps: seq<real>)
    ensures |ps| <= |trades|
    ensures ps == [] <==> forall k :: 0 <= k < |trades| ==> !trades[k].Closed?
  {
    if |trades| == 0 then []
    else if trades[0].Closed? then [trades[0].pnlPercent] + ClosedPercents(trades[1..])
    else
      var rest := ClosedPercents(trades[1..]);
      assert rest == [] ==> forall k :: 0 <= k < |trades| ==> !trades[k].Closed? by {
        if rest == [] {
          forall k | 0 <= k < |trades| ensures !trades[k].Closed? {
            if k > 0 { assert trades[k] == trades[1..][k - 1]; }
          }
        }
      }
      rest
  }

  /** The winning trades: P&L strictly above zero. */
  function Wins(ps: seq<real>): (w: seq<real>)
    ensures |w| <= |ps|
    ensures forall k :: 0 <= k < |w| ==> w[k] > 0.0
    ensures w == [] <==> forall k :: 0 <= k < |ps| ==> ps[k] <= 0.0
  {
    if |ps| == 0 then []
    else if ps[0] > 0.0 then [ps[0]] + Wins(ps[1..])
    else
      var rest := Wins(ps[1..]);
      assert rest == [] ==> forall k :: 0 <= k < |ps| ==> ps[k] <= 0.0 by {
        if rest == [] {
          forall k | 0 <= k < |ps| ensures ps[k] <= 0.0 {
            if k > 0 { assert ps[k] == ps[1..][k - 1]; }
          }
        }
      }
      rest
  }

  /** The losing trades: P&L zero or below, so a break-even trade is a loss. */
  function Losses(ps: seq<real>): (l: seq<real>)
    ensures |l| <= |ps|
    ensures forall k :: 0 <= k < |l| ==> l[k] <= 0.0
    ensures l == [] <==> forall k :: 0 <= k < |ps| ==> ps[k] > 0.0
  {
    if |ps| == 0 then []
    else if ps[0] <= 0.0 then [ps[0]] + Losses(ps[1..])
    else
      var rest := Losses(ps[1..]);
      assert rest == [] ==> forall k :: 0 <= k < |ps| ==> ps[k] > 0.0 by {
        if rest == [] {
          forall k | 0 <= k < |ps| ensures ps[k] > 0.0 {
            if k > 0 { assert ps[k] == ps[1..][k - 1]; }
          }
        }
      }
      rest
  }

  /** A single trade contributes its percentage iff it was closed... */
  lemma ClosedPercentsOne(t: Trade)
    ensures ClosedPercents([t]) == if t.Closed? then [t.pnlPercent] else []
  {
    assert [t][1..] == [];
  }

  /** ...and the percentages of consecutive trades concatenate in order. */
  lemma {:induction false} ClosedPercentsAppend(a: seq<Trade>, b: seq<Trade>)
    ensures ClosedPercents(a + b) == ClosedPercents(a) + ClosedPercents(b)
    decreases |a|
  {
    if |a| == 0 {
      assert a + b == b;
    } else {
      assert (a + b)[0] == a[0] && (a + b)[1..] == a[1..] + b;
      ClosedPercentsAppend(a[1..], b);
    }
  }

  /** A single percentage is a win iff it is above zero, a loss otherwise... */
  lemma WinsLossesOne(p: real)
    ensures Wins([p]) == if p > 0.0 then [p] else []
    ensures Losses([p]) == if p <= 0.0 then [p] else []
  {
    assert [p][1..] == [];
  }

  /** ...and both filters keep the order of consecutive lists. */
  lemma {:induction false} WinsAppend(a: seq<real>, b: seq<real>)
    ensures Wins(a + b) == Wins(a) + Wins(b)
    decreases |a|
  {
    if |a| == 0 {
      assert a + b == b;
    } else {
      assert (a + b)[0] == a[0] && (a + b)[1..] == a[1..] + b;
      WinsAppend(a[1..], b);
      if a[0] > 0.0 {
        assert [a[0]] + Wins(a[1..]) + Wins(b) == [a[0]] + (Wins(a[1..]) + Wins(b));
      }
    }
  }

  lemma {:induction false} LossesAppend(a: seq<real>, b: seq<real>)
    ensures Losses(a + b) == Losses(a) + Losses(b)
    decreases |a|
  {
    if |a| == 0 {
      assert a + b == b;
    } else {
      assert (a + b)[0] == a[0] && (a + b)[1..] == a[1..] + b;
      LossesAppend(a[1..], b);
      if a[0] <= 0.0 {
        assert [a[0]] + Losses(a[1..]) + Losses(b) == [a[0]] + (Losses(a[1..]) + Losses(b));
      }
    }
  }

  /** Every closed trade is a win or a loss, never both. */
  lemma {:induction false} WinsLossesPartition(ps: seq<real>)
    ensures |Wins(ps)| + |Losses(ps)| == |ps|
    ensures Sum(Wins(ps)) + Sum(Losses(ps)) == Sum(ps)
  {
    if |ps| > 0 {
      WinsLossesPartition(ps[1..]);
      assert ([ps[0]] + Wins(ps[1..]))[1..] == Wins(ps[1..]);
      assert ([ps[0]] + Losses(ps[1..]))[1..] == Losses(ps[1..]);
    }
  }

  function Sum(xs: seq<real>): real {
    if |xs| == 0 then 0.0 else xs[0] + Sum(xs[1..])
  }

  /** A sum of positive numbers is positive when there is at least one. */
  lemma {:induction false} SumPositive(xs: seq<real>)
    requires forall k :: 0 <= k < |xs| ==> xs[k] > 0.0
    ensures Sum(xs) >= 0.0
    ensures |xs| > 0 ==> Sum(xs) > 0.0
  {
    if |xs| > 0 {
      SumPositive(xs[1..]);
    }
  }

  lemma {:induction false} SumNonPositive(xs: seq<real>)
    requires forall k :: 0 <= k < |xs| ==> xs[k] <= 0.0
    ensures Sum(xs) <= 0.0
  {
    if |xs| > 0 {
      SumNonPositive(xs[1..]);
    }
  }

  /** `mean()` of a non-empty list, 0 for an empty one. */
  function MeanOrZero(xs: seq<real>): (m: real)
  {
    if |xs| > 0 then Sum(xs) / |xs| as real else 0.0
  }

  /** Profit factor: a ratio, or `float('inf')`. */
  datatype Factor = Finite(value: real) | Infinite

  function ProfitFactor(totalProfit: real, totalLoss: real): (f: Factor)
    ensures f.Infinite? <==> totalLoss <= 0.0
    ensures f.Finite? ==> f.value * totalLoss == totalProfit
  {
    if totalLoss > 0.0 then Finite(totalProfit / totalLoss) else Infinite
  }

  datatype Report = Report(
    closedTrades: nat, winRate: real, profitFactor: Factor,
    avgWin: real, avgLoss: real,
    finalCapital: real, netProfit: real, netProfitPercent: real)

  function Abs(x: real): real {
    if x < 0.0 then -x else x
  }

  /** Share of winning trades, in percent. */
  function WinRate(ps: seq<real>): (w: real)
    requires ps != []
    ensures 0.0 <= w <= 100.0
    ensures w == 100.0 <==> forall k :: 0 <= k < |ps| ==> ps[k] > 0.0
    ensures w == 0.0 <==> forall k :: 0 <= k < |ps| ==> ps[k] <= 0.0
    ensures w / 100.0 == |Wins(ps)| as real / |ps| as real
  {
    var wins := Wins(ps);
    WinsLossesPartition(ps);
    assert |wins| == |ps| <==> Losses(ps) == [];
    RatioBounds(|wins|, |ps|);
    (|wins| as real / |ps| as real) * 100.0
  }

  lemma RatioBounds(a: nat, b: nat)
    requires 0 < b && a <= b
    ensures 0.0 <= (a as real / b as real) * 100.0 <= 100.0
    ensures (a as real / b as real) * 100.0 == 100.0 <==> a == b
    ensures (a as real / b as real) * 100.0 == 0.0 <==> a == 0
  {
  }

  /** Sum of winning percentages over the absolute sum of losing ones. */
  function Factors(ps: seq<real>): (f: Factor)
    ensures f.Infinite? <==> Sum(Losses(ps)) == 0.0
    ensures f.Finite? ==> f.value >= 0.0
    ensures f.Finite? ==> Sum(Losses(ps)) < 0.0 && f.value == Sum(Wins(ps)) / -Sum(Losses(ps))
  {
    var profit, loss := Sum(Wins(ps)), Sum(Losses(ps));
    SumPositive(Wins(ps));
    SumNonPositive(Losses(ps));
    assert Abs(loss) == -loss;
    var f := ProfitFactor(profit, Abs(loss));
    assert f.Finite? ==> f.value == profit / -loss;
    f
  }

  /** The mean of a list with a positive sum is positive; with a
      non-positive sum it is not positive. */
  lemma MeanSign(xs: seq<real>)
    ensures Sum(xs) >= 0.0 ==> MeanOrZero(xs) >= 0.0
    ensures |xs| > 0 && Sum(xs) > 0.0 ==> MeanOrZero(xs) > 0.0
    ensures Sum(xs) <= 0.0 ==> MeanOrZero(xs) <= 0.0
  {
    if |xs| > 0 && Sum(xs) <= 0.0 {
      DivNonPositive(Sum(xs), |xs| as real);
    }
  }

  /** Average win and average loss. */
  function Averages(ps: seq<real>): (a: (real, real))
    ensures a.0 >= 0.0 && a.1 <= 0.0
    ensures Wins(ps) != [] ==> a.0 > 0.0
    ensures a.0 == if Wins(ps) == [] then 0.0 else Sum(Wins(ps)) / |Wins(ps)| as real
    ensures a.1 == if Losses(ps) == [] then 0.0 else Sum(Losses(ps)) / |Losses(ps)| as real
  {
    var wins := Wins(ps);
    var losses := Losses(ps);
    SumPositive(wins);
    SumNonPositive(losses);
    MeanSign(wins);
    MeanSign(losses);
    (MeanOrZero(wins), MeanOrZero(losses))
  }

  /** The metrics of a replay; `None` when no sell was recorded, where the
      analyzer prints a notice and stops. */
  function Analyze(r: Replay): (rep: Option<Report>)
    requires Reachable(r)
    ensures rep.None? <==> forall k :: 0 <= k < |r.trades| ==> !r.trades[k].Closed?
    ensures rep.Some? ==>
              var ps := ClosedPercents(r.trades);
              && rep.value.closedTrades == |ps|
              && 0.0 <= rep.value.winRate <= 100.0
              && (rep.value.winRate == 100.0 <==> forall k :: 0 <= k < |ps| ==> ps[k] > 0.0)
              && (rep.value.winRate == 0.0 <==> forall k :: 0 <= k < |ps| ==> ps[k] <= 0.0)
              && (rep.value.profitFactor.Infinite? <==> Sum(Losses(ps)) == 0.0)
              && (rep.value.profitFactor.Finite? ==> rep.value.profitFactor.value >= 0.0)
              && rep.value.avgWin >= 0.0 && rep.value.avgLoss <= 0.0
              && rep.value.winRate == WinRate(ps)
              && rep.value.profitFactor == Factors(ps)
              && (rep.value.avgWin, rep.value.avgLoss) == Averages(ps)
              && rep.value.finalCapital == r.history[|r.history| - 1]
              && rep.value.netProfit == rep.value.finalCapital - InitialCapital
              && rep.value.netProfitPercent * InitialCapital == rep.value.netProfit * 100.0
  {
    var ps := ClosedPercents(r.trades);
    if ps == [] then None
    else
      var (avgWin, avgLoss) := Averages(ps);
      var finalCapital := r.history[|r.history| - 1];
      var net := finalCapital - InitialCapital;
      Some(Report(|ps|, WinRate(ps), Factors(ps), avgWin, avgLoss,
                  finalCapital, net, (net / InitialCapital) * 100.0))
  }

  lemma DivNonPositive(a: real, b: real)
    requires a <= 0.0 && b >= 0.0
    ensures b > 0.0 ==> a / b <= 0.0
  {
  }

  /** Replaying a log that starts with a buy and ends with a sell: the last
      value of the equity history is the replayed cash, so the reported
      final capital is the cash the log reconstructs. */
  lemma FinalCapitalIsCash(events: seq<Event>, e: Event)
    requires |events| > 0 && events[0].Buy? && e.Sell?
    ensures var r := ReplayFrom(Start, events + [e]);
            Analyze(r).Some? && Analyze(r).value.finalCapital == r.cash
  {
    var r0 := Apply(Start, events[0]);
    assert r0.trades[0].Opened?;
    var before := ReplayFrom(Start, events);
    assert before == ReplayFrom(r0, events[1..]);
    KeepsBuy(r0, events[1..]);
    ReplaySnoc(Start, events, e);
    var r := ReplayFrom(Start, events + [e]);
    assert r.trades[|r.trades| - 1].Closed?;
  }

  /** A recorded buy stays recorded. */
  lemma {:induction false} KeepsBuy(r: Replay, events: seq<Event>)
    requires Reachable(r) && HasBuy(r.trades)
    ensures HasBuy(ReplayFrom(r, events).trades)
    decreases |events|
  {
    if |events| > 0 {
      var r1 := Apply(r, events[0]);
      assert HasBuy(r1.trades) by {
        var k :| 0 <= k < |r.trades| && r.trades[k].Opened?;
        assert r1.trades[k] == r.trades[k];
      }
      KeepsBuy(r1, events[1..]);
    }
  }
}
