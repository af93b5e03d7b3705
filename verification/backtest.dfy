/** The SMA-crossover backtest: starting with 1000 dollars, buy with all
    the capital when the 20-day average crosses above the 50-day one and
    sell everything when it crosses back below. Only the strict crossings
    count, the scan starts at the second row, and the indicator values are
    given rather than computed. */
module Backtest {
  const InitialCapital: real := 1000.0

  /** One row of the prepared data. */
  datatype Row = Row(sma20: real, sma50: real, close: real)

  datatype Side = BuySide | SellSide

  /** An entry of the `trades` list: the price and the balance after it. */
  datatype Trade = Trade(action: Side, price: real, balance: real)

  /** The loop variables; `long` is `position == 'LONG'`. */
  datatype State = State(capital: real, btc: real, long: bool, trades: seq<Trade>)

  const Start: State := State(InitialCapital, 0.0, false, [])

  /** The 20-day average moves from strictly below to strictly above. */
  predicate CrossUp(prev: Row, cur: Row) {
    prev.sma20 < prev.sma50 && cur.sma20 > cur.sma50
  }

  predicate CrossDown(prev: Row, cur: Row) {
    prev.sma20 > prev.sma50 && cur.sma20 < cur.sma50
  }

  /** The two crossings exclude each other, and equal averages on either
      row trigger neither. */
  lemma CrossingsExclusive(prev: Row, cur: Row)
    ensures !(CrossUp(prev, cur) && CrossDown(prev, cur))
    ensures prev.sma20 == prev.sma50 || cur.sma20 == cur.sma50 ==>
              !CrossUp(prev, cur) && !CrossDown(prev, cur)
  {
  }

  /** One iteration of the loop, at row `cur` with `prev` the row before. */
  function Step(s: State, prev: Row, cur: Row): (r: State)
    requires cur.close > 0.0
    ensures CrossUp(prev, cur) && !s.long ==>
              && r.long && r.capital == 0.0 && r.btc * cur.close == s.capital
              && r.trades == s.trades + [Trade(BuySide, cur.close, s.capital)]
    ensures CrossDown(prev, cur) && s.long ==>
              && !r.long && r.btc == 0.0 && r.capital == s.btc * cur.close
              && r.trades == s.trades + [Trade(SellSide, cur.close, r.capital)]
    ensures !(CrossUp(prev, cur) && !s.long) && !(CrossDown(prev, cur) && s.long) ==> r == s
  {
    if CrossUp(prev, cur) && !s.long then
      var btc := s.capital / cur.close;
      assert btc * cur.close == s.capital;
      State(0.0, btc, true, s.trades + [Trade(BuySide, cur.close, btc * cur.close)])
    else if CrossDown(prev, cur) && s.long then
      var capital := s.btc * cur.close;
      State(capital, 0.0, false, s.trades + [Trade(SellSide, cur.close, capital)])
    else s
  }

  predicate AllPriced(rows: seq<Row>) {
    forall k :: 0 <= k < |rows| ==> rows[k].close > 0.0
  }

  /** The state after the iterations `i = 1 .. n - 1`. */
  function Upto(rows: seq<Row>, n: nat): State
    requires AllPriced(rows) && 1 <= n <= |rows|
  {
    if n == 1 then Start else Step(Upto(rows, n - 1), rows[n - 2], rows[n - 1])
  }

  /** The state after the whole loop; with fewer than two rows it never runs. */
  function Simulate(rows: seq<Row>): State
    requires AllPriced(rows)
  {
    if |rows| <= 1 then Start else Upto(rows, |rows|)
  }

  /** What the loop keeps: trades alternate BUY, SELL, ... starting with a
      BUY; the position is long exactly after an odd number of trades; a
      long position holds coins and no cash, a neutral one cash and no
      coins; the cash of a neutral position is the balance of the last
      SELL (1000 before any trade), and a long position is worth the
      last BUY's balance at that BUY's price. */
  predicate Sound(s: State) {
    && (forall k :: 0 <= k < |s.trades| ==> (s.trades[k].action == BuySide <==> k % 2 == 0))
    && s.long == (|s.trades| % 2 == 1)
    && (s.long ==> s.capital == 0.0 && s.btc > 0.0
                   && s.btc * s.trades[|s.trades| - 1].price == s.trades[|s.trades| - 1].balance)
    && (!s.long ==> s.btc == 0.0 && s.capital > 0.0
                    && s.capital == (if s.trades == [] then InitialCapital else s.trades[|s.trades| - 1].balance))
  }

  lemma StepSound(s: State, prev: Row, cur: Row)
    requires Sound(s) && cur.close > 0.0
    ensures Sound(Step(s, prev, cur))
  {
    var r := Step(s, prev, cur);
    if CrossUp(prev, cur) && !s.long {
      assert r.trades[|s.trades|].action == BuySide;
      assert forall k :: 0 <= k < |s.trades| ==> r.trades[k] == s.trades[k];
      assert r.btc * cur.close == s.capital;
      assert r.btc > 0.0 by { PositiveQuotient(s.capital, cur.close); }
    } else if CrossDown(prev, cur) && s.long {
      assert r.trades[|s.trades|].action == SellSide;
      assert forall k :: 0 <= k < |s.trades| ==> r.trades[k] == s.trades[k];
      assert r.capital > 0.0 by { PositiveProduct(s.btc, cur.close); }
    }
  }

  lemma PositiveQuotient(a: real, b: real)
    requires a > 0.0 && b > 0.0
    ensures a / b > 0.0
  {
  }

  lemma PositiveProduct(a: real, b: real)
    requires a > 0.0 && b > 0.0
    ensures a * b > 0.0
  {
  }

  /** Every prefix of the loop is sound. */
  lemma {:induction false} UptoSound(rows: seq<Row>, n: nat)
    requires AllPriced(rows) && 1 <= n <= |rows|
    ensures Sound(Upto(rows, n))
  {
    if n > 1 {
      UptoSound(rows, n - 1);
      StepSound(Upto(rows, n - 1), rows[n - 2], rows[n - 1]);
    }
  }

  /** The final balance: the coins at the last close when there are any,
      the cash otherwise. */
  function FinalBalance(s: State, rows: seq<Row>): real
    requires |rows| > 0 || s.btc <= 0.0
  {
    if s.btc > 0.0 then s.btc * rows[|rows| - 1].close else s.capital
  }

  /** `balance` is the value of the coins bought by `buy` at the price
      `close`: it has moved from the BUY's balance in proportion to the
      price. */
  predicate MarkedToMarket(balance: real, buy: Trade, close: real) {
    balance * buy.price == buy.balance * close
  }

  /** What the final balance says about the trade list: after a complete
      round trip it is the last SELL's balance (1000 with no trade), and
      with a position still open it is the last BUY's balance scaled by
      the move from that BUY's price to the last close. */
  lemma FinalBalanceFacts(s: State, rows: seq<Row>)
    requires Sound(s) && AllPriced(rows) && (s.long ==> |rows| > 0)
    ensures FinalBalance(s, rows) > 0.0
    ensures |s.trades| % 2 == 0 ==>
              FinalBalance(s, rows)
              == (if s.trades == [] then InitialCapital else s.trades[|s.trades| - 1].balance)
    ensures |s.trades| % 2 == 1 ==>
              MarkedToMarket(FinalBalance(s, rows), s.trades[|s.trades| - 1], rows[|rows| - 1].close)
  {
    if s.long {
      var last := s.trades[|s.trades| - 1];
      var close := rows[|rows| - 1].close;
      PositiveProduct(s.btc, close);
      calc {
        FinalBalance(s, rows) * last.price;
        s.btc * close * last.price;
        s.btc * last.price * close;
        last.balance * close;
      }
    }
  }

  /** `(final_balance - initial_capital) / initial_capital * 100`. */
  function ProfitPercent(finalBalance: real): (p: real)
    ensures p * InitialCapital == (finalBalance - InitialCapital) * 100.0
  {
    ((finalBalance - InitialCapital) / InitialCapital) * 100.0
  }

  /** The state after the loop is sound. */
  lemma SimulateSound(rows: seq<Row>)
    requires AllPriced(rows)
    ensures Sound(Simulate(rows))
    ensures Simulate(rows).long ==> |rows| > 0
  {
    if |rows| > 1 {
      UptoSound(rows, |rows|);
    }
  }

  /** The result of the backtest: final balance, profit in percent and the
      trade list. The loop runs over the rows as `for i in range(1, n)`. */
  method Run(rows: seq<Row>) returns (finalBalance: real, profit: real, trades: seq<Trade>)
    requires AllPriced(rows)
    ensures trades == Simulate(rows).trades
    ensures forall k :: 0 <= k < |trades| ==> (trades[k].action == BuySide <==> k % 2 == 0)
    ensures finalBalance > 0.0
    ensures |trades| % 2 == 0 ==>
              finalBalance == (if trades == [] then InitialCapital else trades[|trades| - 1].balance)
    ensures |trades| % 2 == 1 ==> MarkedToMarket(finalBalance, trades[|trades| - 1], rows[|rows| - 1].close)
    ensures profit * InitialCapital == (finalBalance - InitialCapital) * 100.0
  {
    var s := Start;
    if |rows| > 1 {
      var i := 1;
      while i < |rows|
        invariant 1 <= i <= |rows|
        invariant s == Upto(rows, i)
      {
        s := Step(s, rows[i - 1], rows[i]);
        i := i + 1;
      }
    }
    assert s == Simulate(rows);
    SimulateSound(rows);
    trades := s.trades;
    FinalBalanceFacts(s, rows);
    finalBalance := FinalBalance(s, rows);
    profit := ProfitPercent(finalBalance);
  }
}
