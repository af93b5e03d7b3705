/** The paper-trading bot: a virtual portfolio persisted between cycles and
    one decision cycle per run. A cycle stops at the trade cap or without a
    price, closes an open position on its stop-loss or take-profit, and
    otherwise weighs the technical prediction and the three sentiment
    signals into a confluence score that opens or closes a 20-dollar
    position. Prices are exact reals; the confluence score is kept in
    half-units so that it is an integer. */
module PaperTrading {
  import opened Wrappers
  import Performance

  const StopLossPercent: real := 1.5
  const TakeProfitPercent: real := 3.0
  const UsdPerTrade: real := 20.0
  const MaxTrades: int := 50

  /** Stop-loss and take-profit as multiples of the entry price. */
  const StopLossFactor: real := 1.0 - StopLossPercent / 100.0
  const TakeProfitFactor: real := 1.0 + TakeProfitPercent / 100.0

  /** The persisted portfolio record. */
  datatype Portfolio = Portfolio(
    cash: real, holding: real, inPosition: bool, totalTrades: int,
    initialValue: real, entry: real, stopLoss: real, takeProfit: real)

  /** `initialize_portfolio`: 1000 dollars, no position, no trade yet. */
  const Initial: Portfolio := Portfolio(1000.0, 0.0, false, 0, 1000.0, 0.0, 0.0, 0.0)

  /** What holds of every portfolio the bot writes: an open position holds
      20 dollars' worth of the asset at the entry price, with its stop-loss
      1.5% below and its take-profit 3% above; a flat portfolio has every
      position field at 0; the trade count never passes the cap. */
  predicate Consistent(s: Portfolio) {
    && 0 <= s.totalTrades <= MaxTrades
    && (s.inPosition ==>
          && s.entry > 0.0 && s.holding > 0.0 && s.holding * s.entry == UsdPerTrade
          && s.stopLoss == s.entry * StopLossFactor && s.takeProfit == s.entry * TakeProfitFactor)
    && (!s.inPosition ==>
          s.holding == 0.0 && s.entry == 0.0 && s.stopLoss == 0.0 && s.takeProfit == 0.0)
  }

  lemma InitialConsistent()
    ensures Consistent(Initial)
    ensures Initial.cash == Initial.initialValue == 1000.0
  {
  }

  /** In a consistent open position the stop-loss is below the entry price
      and the take-profit above it. */
  lemma BracketOrdered(s: Portfolio)
    requires Consistent(s) && s.inPosition
    ensures 0.0 < s.stopLoss < s.entry < s.takeProfit
  {
  }

  /** `execute_paper_buy`: spend 20 dollars at `price`. */
  function Buy(s: Portfolio, price: real): (r: Portfolio)
    requires price != 0.0
    ensures r.holding * price == UsdPerTrade
    ensures r.cash == s.cash - UsdPerTrade && r.totalTrades == s.totalTrades + 1
    ensures r.inPosition && r.entry == price && r.initialValue == s.initialValue
    ensures price > 0.0 ==> 0.0 < r.stopLoss < r.entry < r.takeProfit
  {
    Portfolio(s.cash - UsdPerTrade, UsdPerTrade / price, true, s.totalTrades + 1,
              s.initialValue, price, price * StopLossFactor, price * TakeProfitFactor)
  }

  /** `execute_paper_sell`: sell the whole holding at `price`; also returns
      the P&L against the 20 dollars spent. */
  function Sell(s: Portfolio, price: real): (r: (Portfolio, real))
    ensures r.0.cash == s.cash + UsdPerTrade + r.1
    ensures r.1 == s.holding * price - UsdPerTrade
    ensures !r.0.inPosition && r.0.holding == 0.0
    ensures r.0.entry == 0.0 && r.0.stopLoss == 0.0 && r.0.takeProfit == 0.0
    ensures r.0.totalTrades == s.totalTrades && r.0.initialValue == s.initialValue
  {
    var value := s.holding * price;
    (Portfolio(s.cash + value, 0.0, false, s.totalTrades, s.initialValue, 0.0, 0.0, 0.0),
     value - UsdPerTrade)
  }

  /** A trade at the market price moves value between cash and holding
      without creating or destroying any. */
  lemma TradeKeepsValue(s: Portfolio, price: real)
    requires price != 0.0 && !s.inPosition && Consistent(s)
    ensures var b := Buy(s, price);
            b.cash + b.holding * price == s.cash + s.holding * price
    ensures var (r, _) := Sell(s, price);
            r.cash + r.holding * price == s.cash + s.holding * price
  {
  }

  // ---------------------------------------------------------------------------
  // The confluence score
  // ---------------------------------------------------------------------------

  /** The signals one cycle reads: the model's prediction (1 up, 0 down) and
      the aggregator's three sentiment signals. */
  datatype Reading = Reading(tech: int, twitter: int, fearAndGreed: int, news: int)

  /** Points of one signal in half-units: `w` for 1, `-w` for -1, nothing otherwise. */
  function Points(signal: int, w: int): int {
    if signal == 1 then w else if signal == -1 then -w else 0
  }

  /** The technical prediction weighs 2, that is 4 half-units, with 0 meaning down. */
  function TechPoints(tech: int): int {
    if tech == 1 then 4 else if tech == 0 then -4 else 0
  }

  /** The confluence score in half-units: technical 4, X 3, Fear & Greed 2,
      news 1. */
  function Score(g: Reading): (h: int)
    ensures -10 <= h <= 10
  {
    TechPoints(g.tech) + Points(g.twitter, 3) + Points(g.fearAndGreed, 2) + Points(g.news, 1)
  }

  /** The score as the bot computes it, in dollars-of-weight: a running sum
      of 2, 1.5, 1 and 0.5 under the same conditions. */
  function WeightedScore(g: Reading): real {
    var s0 := 0.0;
    var s1 := if g.tech == 1 then s0 + 2.0 else s0;
    var s2 := if g.tech == 0 then s1 - 2.0 else s1;
    var s3 := if g.twitter == 1 then s2 + 1.5 else s2;
    var s4 := if g.twitter == -1 then s3 - 1.5 else s3;
    var s5 := if g.fearAndGreed == 1 then s4 + 1.0 else s4;
    var s6 := if g.fearAndGreed == -1 then s5 - 1.0 else s5;
    var s7 := if g.news == 1 then s6 + 0.5 else s6;
    if g.news == -1 then s7 - 0.5 else s7
  }

  /** The half-unit score is twice the weighted one, so the ±3.0 thresholds
      are ±6 half-units and the score lies in [-5, 5]. */
  lemma ScoreIsDoubled(g: Reading)
    ensures Score(g) as real == 2.0 * WeightedScore(g)
    ensures WeightedScore(g) >= 3.0 <==> Score(g) >= 6
    ensures WeightedScore(g) <= -3.0 <==> Score(g) <= -6
    ensures -5.0 <= WeightedScore(g) <= 5.0
  {
  }

  /** Reaching the buy threshold needs a bullish prediction and at least
      two half-units of sentiment; without a 0/1 prediction it needs all
      three sentiment signals bullish; a bearish prediction never buys. */
  lemma BuyThreshold(g: Reading)
    ensures Score(g) >= 6 <==>
              || (g.tech == 1 && Points(g.twitter, 3) + Points(g.fearAndGreed, 2) + Points(g.news, 1) >= 2)
              || (g.tech != 0 && g.tech != 1 && g.twitter == 1 && g.fearAndGreed == 1 && g.news == 1)
    ensures g.tech == 0 ==> Score(g) < 6
  {
  }

  /** Mirror image: a sell on confluence needs a bearish prediction, or all
      three sentiment signals bearish; a bullish prediction never sells. */
  lemma SellThreshold(g: Reading)
    ensures Score(g) <= -6 <==>
              || (g.tech == 0 && Points(g.twitter, 3) + Points(g.fearAndGreed, 2) + Points(g.news, 1) <= -2)
              || (g.tech != 0 && g.tech != 1 && g.twitter == -1 && g.fearAndGreed == -1 && g.news == -1)
    ensures g.tech == 1 ==> Score(g) > -6
  {
  }

  // ---------------------------------------------------------------------------
  // One cycle of `run_bot`
  // ---------------------------------------------------------------------------

  datatype Reason = StopLoss | TakeProfit | Confluence

  /** The reason passed to the sell and shown in the notification. */
  function ReasonText(r: Reason): string {
    match r
    case StopLoss => "Stop-Loss"
    case TakeProfit => "Take-Profit"
    case Confluence => "Señal de Venta por Confluencia"
  }

  /** How a cycle ended. */
  datatype Cycle =
    | LimitReached                                // 50 trades done
    | NoPrice                                     // price unavailable or zero
    | Closed(reason: Reason, price: real, pnl: real)
    | SignalsFailed                               // prediction or sentiment raised
    | Opened(price: real)
    | Held(score: int)                            // score in half-units

  /** `run_bot`, with the price (`None` when the ticker request failed) and
      the signals (`None` when fetching them raised) as inputs. The signals
      are only consulted when the cycle gets that far. */
  function Step(s: Portfolio, price: Option<real>, signals: Option<Reading>): (r: (Portfolio, Cycle))
    ensures r.1.LimitReached? <==> s.totalTrades >= MaxTrades
    ensures r.1.NoPrice? <==> s.totalTrades < MaxTrades && (price.None? || price.value == 0.0)
    ensures r.1.LimitReached? || r.1.NoPrice? || r.1.SignalsFailed? || r.1.Held? ==> r.0 == s
    ensures r.1.SignalsFailed? <==>
              && s.totalTrades < MaxTrades && price.Some? && price.value != 0.0
              && !(s.inPosition && (price.value <= s.stopLoss || price.value >= s.takeProfit))
              && signals.None?
    ensures r.1.Closed? ==>
              && s.inPosition && s.totalTrades < MaxTrades && price == Some(r.1.price)
              && (r.0, r.1.pnl) == Sell(s, r.1.price)
    ensures r.1.Closed? && r.1.reason == StopLoss <==>
              s.totalTrades < MaxTrades && price.Some? && price.value != 0.0
              && s.inPosition && price.value <= s.stopLoss
    ensures r.1.Closed? && r.1.reason == TakeProfit <==>
              s.totalTrades < MaxTrades && price.Some? && price.value != 0.0
              && s.inPosition && s.stopLoss < price.value && price.value >= s.takeProfit
    ensures r.1.Closed? && r.1.reason == Confluence ==> signals.Some? && Score(signals.value) <= -6
    ensures r.1.Opened? <==>
              && s.totalTrades < MaxTrades && price.Some? && price.value != 0.0
              && !s.inPosition && signals.Some? && Score(signals.value) >= 6
    ensures r.1.Opened? ==> price == Some(r.1.price) && r.0 == Buy(s, r.1.price)
    ensures r.1.Held? ==>
              && signals.Some? && r.1.score == Score(signals.value)
              && (-6 < r.1.score < 6 || (s.inPosition && r.1.score >= 6) || (!s.inPosition && r.1.score <= -6))
  {
    if s.totalTrades >= MaxTrades then (s, LimitReached)
    else if price.None? || price.value == 0.0 then (s, NoPrice)
    else
      var p := price.value;
      if s.inPosition && p <= s.stopLoss then
        var (s', pnl) := Sell(s, p);
        (s', Closed(StopLoss, p, pnl))
      else if s.inPosition && p >= s.takeProfit then
        var (s', pnl) := Sell(s, p);
        (s', Closed(TakeProfit, p, pnl))
      else
        match signals
        case None => (s, SignalsFailed)
        case Some(g) =>
          var score := Score(g);
          if score >= 6 && !s.inPosition then (Buy(s, p), Opened(p))
          else if score <= -6 && s.inPosition then
            var (s', pnl) := Sell(s, p);
            (s', Closed(Confluence, p, pnl))
          else (s, Held(score))
  }

  /** A price the bot can trade at without breaking its bookkeeping:
      missing, zero (both abort the cycle) or positive. */
  predicate SanePrice(price: Option<real>) {
    price.None? || price.value >= 0.0
  }

  /** Every cycle keeps the portfolio consistent. */
  lemma StepKeepsConsistent(s: Portfolio, price: Option<real>, signals: Option<Reading>)
    requires Consistent(s) && SanePrice(price)
    ensures Consistent(Step(s, price, signals).0)
  {
    var (s', c) := Step(s, price, signals);
    if c.Opened? {
      var p := c.price;
      assert s'.holding * p == UsdPerTrade;
      assert s'.entry == p;
    }
  }

  /** The trade count rises by one exactly when a position is opened. */
  lemma StepCountsBuys(s: Portfolio, price: Option<real>, signals: Option<Reading>)
    ensures var (s', c) := Step(s, price, signals);
            s'.totalTrades == s.totalTrades + (if c.Opened? then 1 else 0)
  {
  }

  // ---------------------------------------------------------------------------
  // Many cycles
  // ---------------------------------------------------------------------------

  /** The inputs of one cycle. */
  datatype Input = Input(price: Option<real>, signals: Option<Reading>)

  /** The trade lines a cycle writes to the log, as the performance
      analyzer parses them. */
  function Logged(c: Cycle): (e: seq<Performance.Event>)
    ensures |e| <= 1
    ensures c.Opened? <==> |e| == 1 && e[0].Buy?
    ensures c.Opened? ==> e == [Performance.Buy(c.price)]
    ensures c.Closed? <==> |e| == 1 && e[0].Sell?
    ensures c.Closed? ==> e == [Performance.Sell(c.price, c.pnl)]
  {
    match c
    case Opened(p) => [Performance.Buy(p)]
    case Closed(_, p, pnl) => [Performance.Sell(p, pnl)]
    case _ => []
  }

  /** Consecutive cycles: the final portfolio and the trade lines logged. */
  function Run(s: Portfolio, inputs: seq<Input>): (r: (Portfolio, seq<Performance.Event>))
    ensures |r.1| <= |inputs|
    decreases |inputs|
  {
    if |inputs| == 0 then (s, [])
    else
      var (s1, c) := Step(s, inputs[0].price, inputs[0].signals);
      var (s2, events) := Run(s1, inputs[1..]);
      (s2, Logged(c) + events)
  }

  predicate AllSane(inputs: seq<Input>) {
    forall k :: 0 <= k < |inputs| ==> SanePrice(inputs[k].price)
  }

  /** Buys and sells alternate, starting with a sell when a position is
      open and with a buy otherwise. */
  predicate Alternating(events: seq<Performance.Event>, open: bool)
    decreases |events|
  {
    |events| == 0
    || ((if open then events[0].Sell? else events[0].Buy?) && Alternating(events[1..], !open))
  }

  /** A cycle flips the position exactly when it logs a trade, and that
      trade is a sell when a position was open and a buy otherwise. */
  lemma StepFlips(s: Portfolio, price: Option<real>, signals: Option<Reading>)
    ensures var (s1, c) := Step(s, price, signals);
            var e := Logged(c);
            && s1.inPosition == (s.inPosition != (|e| == 1))
            && (|e| == 1 ==> if s.inPosition then e[0].Sell? else e[0].Buy?)
  {
  }

  lemma AllSaneTail(inputs: seq<Input>)
    requires |inputs| > 0 && AllSane(inputs)
    ensures AllSane(inputs[1..])
  {
    forall k | 0 <= k < |inputs| - 1 ensures SanePrice(inputs[1..][k].price) {
      assert inputs[1..][k] == inputs[k + 1];
    }
  }

  /** Putting at most one trade of the right side in front of an alternating
      log keeps it alternating. */
  lemma AlternatingCons(e: seq<Performance.Event>, rest: seq<Performance.Event>, open: bool)
    requires |e| <= 1 && (|e| == 1 ==> if open then e[0].Sell? else e[0].Buy?)
    requires Alternating(rest, open != (|e| == 1))
    ensures Alternating(e + rest, open)
  {
    if |e| == 1 {
      assert (e + rest)[1..] == rest;
    } else {
      assert e + rest == rest;
    }
  }

  /** Over any number of cycles the portfolio stays consistent, the logged
      trades alternate, and the position is open at the end exactly when an
      odd number of trades flipped it. */
  lemma {:induction false} RunAlternates(s: Portfolio, inputs: seq<Input>)
    requires Consistent(s) && AllSane(inputs)
    ensures var (s', events) := Run(s, inputs);
            && Consistent(s')
            && Alternating(events, s.inPosition)
            && s'.inPosition == (s.inPosition != (|events| % 2 == 1))
    decreases |inputs|
  {
    if |inputs| > 0 {
      var (s1, c) := Step(s, inputs[0].price, inputs[0].signals);
      StepKeepsConsistent(s, inputs[0].price, inputs[0].signals);
      StepFlips(s, inputs[0].price, inputs[0].signals);
      AllSaneTail(inputs);
      RunAlternates(s1, inputs[1..]);
      var (s2, rest) := Run(s1, inputs[1..]);
      var e := Logged(c);
      assert Run(s, inputs) == (s2, e + rest);
      AlternatingCons(e, rest, s.inPosition);
      assert |e + rest| == |e| + |rest|;
    }
  }

  /** However many cycles run, the bot never exceeds 50 trades. */
  lemma {:induction false} RunRespectsCap(s: Portfolio, inputs: seq<Input>)
    requires Consistent(s) && AllSane(inputs)
    ensures Run(s, inputs).0.totalTrades <= MaxTrades
  {
    RunAlternates(s, inputs);
  }
}
