/** The state shared by the two all-in bots: the whole capital is either in
    cash or in bitcoin. A buy converts all the cash at the closing price, a
    sell converts all the bitcoin back. */
module AllIn {
  /** The in-memory `bot_state` record. */
  datatype BotState = BotState(capital: real, open: bool, btc: real)

  const Initial: BotState := BotState(1000.0, false, 0.0)

  /** What every cycle keeps: while a position is open there is no cash,
      while none is open there is no bitcoin. */
  predicate AllInOrOut(s: BotState) {
    (s.open ==> s.capital == 0.0) && (!s.open ==> s.btc == 0.0)
  }

  lemma InitialAllInOrOut()
    ensures AllInOrOut(Initial) && Initial.capital == 1000.0
  {
  }

  /** How a cycle ended; a trade carries the price and the balance the log
      line reports. */
  datatype Action =
    | NoData
    | Bought(price: real, balance: real)
    | Sold(price: real, balance: real)
    | Held(prediction: int)
    | OrderFailed
    | Crashed

  /** Going all in: every dollar becomes bitcoin at `price`. */
  function Enter(s: BotState, price: real): (r: BotState)
    requires price != 0.0
    ensures r.open && r.capital == 0.0
    ensures r.btc * price == s.capital
  {
    BotState(0.0, true, s.capital / price)
  }

  /** Getting out: all the bitcoin becomes cash at `price`. */
  function Exit(s: BotState, price: real): (r: BotState)
    ensures !r.open && r.btc == 0.0
    ensures r.capital == s.btc * price
  {
    BotState(s.btc * price, false, 0.0)
  }

  /** Buying and selling at the same price gives back the capital. */
  lemma RoundTripAtSamePrice(s: BotState, price: real)
    requires price != 0.0
    ensures Exit(Enter(s, price), price).capital == s.capital
  {
  }

  /** Buying at `p` and selling at `q` scales the capital by q / p. */
  lemma RoundTripReturn(s: BotState, p: real, q: real)
    requires p > 0.0
    ensures Exit(Enter(s, p), q).capital * p == s.capital * q
  {
    var e := Enter(s, p);
    calc {
      Exit(e, q).capital * p;
      e.btc * q * p;
      { assert e.btc * p == s.capital; }
      s.capital * q;
    }
  }

  /** The trades a run has logged, in order, alternate buy, sell, buy, ...
      starting from a flat position. */
  predicate Alternating(actions: seq<Action>, open: bool)
    decreases |actions|
  {
    |actions| == 0
    || ((if open then actions[0].Sold? else actions[0].Bought?) && Alternating(actions[1..], !open))
  }

  /** The logged trades of a list of cycle outcomes. */
  function Trades(actions: seq<Action>): (t: seq<Action>)
    ensures |t| <= |actions|
    ensures forall k :: 0 <= k < |t| ==> t[k].Bought? || t[k].Sold?
  {
    if |actions| == 0 then []
    else if actions[0].Bought? || actions[0].Sold? then [actions[0]] + Trades(actions[1..])
    else Trades(actions[1..])
  }

  /** Every buy and sell is logged, one outcome at a time... */
  lemma TradesOne(a: Action)
    ensures Trades([a]) == if a.Bought? || a.Sold? then [a] else []
  {
  }

  /** ...and in order: the trades of consecutive runs of cycles concatenate. */
  lemma {:induction false} TradesAppend(a: seq<Action>, b: seq<Action>)
    ensures Trades(a + b) == Trades(a) + Trades(b)
    decreases |a|
  {
    if |a| > 0 {
      assert (a + b)[0] == a[0] && (a + b)[1..] == a[1..] + b;
      TradesAppend(a[1..], b);
    } else {
      assert a + b == b;
    }
  }
}
