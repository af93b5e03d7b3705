/** The real-time all-in bot: the scheduler's decision rule, with a market
    order sent to the exchange before the state changes. When sending
    orders is switched on and the order fails, the cycle ends with nothing
    changed and nothing logged. */
module RealTimeBot {
  import opened AllIn
  import Scheduler

  /** `execute_trade_logic`. `useBinance` is the `USE_BINANCE` switch and
      `orderOk` whether the exchange accepted the order; the latter only
      matters when the switch is on and a trade is due. A zero price on a
      buy raises `ZeroDivisionError` before any order, which the main loop
      catches: the state is then unchanged. */
  function Cycle(s: BotState, closes: seq<real>, prediction: int, useBinance: bool, orderOk: bool): (r: (BotState, Action))
    ensures closes == [] ==> r == (s, NoData)
    ensures r.1.NoData? || r.1.Held? || r.1.OrderFailed? || r.1.Crashed? ==> r.0 == s
    ensures r.1.OrderFailed? <==>
              closes != [] && useBinance && !orderOk
              && ((prediction == 1 && !s.open && closes[|closes| - 1] != 0.0) || (prediction == 0 && s.open))
    ensures r.1.Crashed? <==> closes != [] && prediction == 1 && !s.open && closes[|closes| - 1] == 0.0
    ensures r.1.Bought? <==>
              closes != [] && prediction == 1 && !s.open && closes[|closes| - 1] != 0.0
              && (!useBinance || orderOk)
    ensures r.1.Sold? <==> closes != [] && prediction == 0 && s.open && (!useBinance || orderOk)
    ensures r.1.Bought? ==> r.1.price == closes[|closes| - 1] && r.0 == Enter(s, r.1.price)
                            && r.1.balance == s.capital
    ensures r.1.Sold? ==> r.1.price == closes[|closes| - 1] && r.0 == Exit(s, r.1.price)
                          && r.1.balance == r.0.capital
    ensures r.1.Held? ==> r.1.prediction == prediction
  {
    if closes == [] then (s, NoData)
    else
      var price := closes[|closes| - 1];
      if prediction == 1 && !s.open then
        if price == 0.0 then (s, Crashed)
        else if useBinance && !orderOk then (s, OrderFailed)
        else
          var s' := Enter(s, price);
          (s', Bought(price, s'.btc * price))
      else if prediction == 0 && s.open then
        if useBinance && !orderOk then (s, OrderFailed)
        else
          var s' := Exit(s, price);
          (s', Sold(price, s'.capital))
      else (s, Held(prediction))
  }

  /** The bot stays all in or all out whatever the exchange answers. */
  lemma CycleKeepsAllInOrOut(s: BotState, closes: seq<real>, prediction: int, useBinance: bool, orderOk: bool)
    requires AllInOrOut(s)
    ensures AllInOrOut(Cycle(s, closes, prediction, useBinance, orderOk).0)
  {
  }

  /** With orders switched off the exchange's answer is irrelevant, and on
      a positive price the bot decides exactly as the scheduler does. */
  lemma SimulationIsScheduler(s: BotState, closes: seq<real>, prediction: int, ok1: bool, ok2: bool)
    requires |closes| > 0 ==> closes[|closes| - 1] > 0.0
    ensures Cycle(s, closes, prediction, false, ok1) == Cycle(s, closes, prediction, false, ok2)
    ensures Cycle(s, closes, prediction, false, ok1) == Scheduler.Cycle(s, closes, prediction)
  {
  }

  /** An accepted order gives the same outcome as not sending one. */
  lemma AcceptedOrderIsSimulation(s: BotState, closes: seq<real>, prediction: int)
    ensures Cycle(s, closes, prediction, true, true) == Cycle(s, closes, prediction, false, false)
  {
  }
}
