/** The scheduled all-in bot: each cycle reads the latest closing price and
    the model's prediction (1 up, 0 down) and goes all in on an up
    prediction while flat, all out on a down prediction while in. */
module Scheduler {
  import opened AllIn

  /** `execute_trade_logic`: `closes` is the closing-price column of the
      prepared data, of which only the last value is used. */
  function Cycle(s: BotState, closes: seq<real>, prediction: int): (r: (BotState, Action))
    requires |closes| > 0 ==> closes[|closes| - 1] > 0.0
    ensures closes == [] ==> r == (s, NoData)
    ensures r.1.Bought? <==> closes != [] && prediction == 1 && !s.open
    ensures r.1.Sold? <==> closes != [] && prediction == 0 && s.open
    ensures r.1.Bought? ==> r.1.price == closes[|closes| - 1] && r.0 == Enter(s, r.1.price)
                            && r.1.balance == s.capital
    ensures r.1.Sold? ==> r.1.price == closes[|closes| - 1] && r.0 == Exit(s, r.1.price)
                          && r.1.balance == r.0.capital
    ensures r.1.Held? || r.1.NoData? ==> r.0 == s
    ensures r.1.Held? ==> r.1.prediction == prediction
    ensures !r.1.OrderFailed? && !r.1.Crashed?
  {
    if closes == [] then (s, NoData)
    else
      var price := closes[|closes| - 1];
      if prediction == 1 && !s.open then
        var s' := Enter(s, price);
        (s', Bought(price, s'.btc * price))
      else if prediction == 0 && s.open then
        var s' := Exit(s, price);
        (s', Sold(price, s'.capital))
      else (s, Held(prediction))
  }

  /** Every cycle keeps the bot all in or all out. */
  lemma CycleKeepsAllInOrOut(s: BotState, closes: seq<real>, prediction: int)
    requires AllInOrOut(s)
    requires |closes| > 0 ==> closes[|closes| - 1] > 0.0
    ensures AllInOrOut(Cycle(s, closes, prediction).0)
  {
  }

  /** The inputs of one cycle. */
  datatype Tick = Tick(closes: seq<real>, prediction: int)

  predicate Priced(t: Tick) {
    |t.closes| > 0 ==> t.closes[|t.closes| - 1] > 0.0
  }

  /** The loop: cycle after cycle, the final state and each cycle's outcome. */
  function Run(s: BotState, ticks: seq<Tick>): (r: (BotState, seq<Action>))
    requires forall k :: 0 <= k < |ticks| ==> Priced(ticks[k])
    ensures |r.1| == |ticks|
    decreases |ticks|
  {
    if |ticks| == 0 then (s, [])
    else
      assert Priced(ticks[0]);
      var (s1, a) := Cycle(s, ticks[0].closes, ticks[0].prediction);
      var (s2, rest) := Run(s1, ticks[1..]);
      (s2, [a] + rest)
  }

  /** Over any run, the logged trades alternate buy and sell, starting with
      a sell exactly when a position was open, and the state stays all in or
      all out. */
  lemma {:induction false} RunAlternates(s: BotState, ticks: seq<Tick>)
    requires AllInOrOut(s)
    requires forall k :: 0 <= k < |ticks| ==> Priced(ticks[k])
    ensures var (s', actions) := Run(s, ticks);
            Alternating(Trades(actions), s.open) && AllInOrOut(s')
    decreases |ticks|
  {
    if |ticks| > 0 {
      assert Priced(ticks[0]);
      var (s1, a) := Cycle(s, ticks[0].closes, ticks[0].prediction);
      CycleKeepsAllInOrOut(s, ticks[0].closes, ticks[0].prediction);
      RunAlternates(s1, ticks[1..]);
      var (s2, rest) := Run(s1, ticks[1..]);
      var actions := [a] + rest;
      assert actions[0] == a && actions[1..] == rest;
      if a.Bought? || a.Sold? {
        assert Trades(actions) == [a] + Trades(rest);
        assert (Trades(actions))[1..] == Trades(rest);
      } else {
        assert s1.open == s.open;
      }
    }
  }
}
