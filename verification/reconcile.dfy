/** How the performance analyzer's reconstruction relates to the paper
    bot that wrote the log: replaying the trade lines of any run of the bot
    from a fresh portfolio gives back the bot's own cash, and when the run
    ends without an open position the reported final capital is that cash. */
module Reconcile {
  import PaperTrading
  import Performance

  /** The correspondence kept along a run: same cash; an open position has
      a recorded buy behind it; a flat portfolio's cash is the last value of
      the equity history. */
  predicate Matches(s: PaperTrading.Portfolio, r: Performance.Replay) {
    && Performance.Reachable(r)
    && r.cash == s.cash
    && (s.inPosition ==> Performance.HasBuy(r.trades))
    && (!s.inPosition ==> r.history[|r.history| - 1] == s.cash)
  }

  /** One cycle keeps the correspondence. */
  lemma StepMatches(s: PaperTrading.Portfolio, r: Performance.Replay, input: PaperTrading.Input)
    requires PaperTrading.Consistent(s) && Matches(s, r)
    ensures var (s', c) := PaperTrading.Step(s, input.price, input.signals);
            Matches(s', Performance.ReplayFrom(r, PaperTrading.Logged(c)))
  {
    var (s', c) := PaperTrading.Step(s, input.price, input.signals);
    var events := PaperTrading.Logged(c);
    if c.Opened? {
      assert events[1..] == [];
      var r1 := Performance.Apply(r, events[0]);
      assert r1.trades[|r.trades|].Opened?;
      assert Performance.ReplayFrom(r, events) == r1;
    } else if c.Closed? {
      assert events[1..] == [];
      var r1 := Performance.Apply(r, events[0]);
      assert Performance.ReplayFrom(r, events) == r1;
    } else {
      assert events == [];
    }
  }

  /** Any run keeps the correspondence. */
  lemma {:induction false} RunMatches(s: PaperTrading.Portfolio, r: Performance.Replay, inputs: seq<PaperTrading.Input>)
    requires PaperTrading.Consistent(s) && Matches(s, r) && PaperTrading.AllSane(inputs)
    ensures var (s', events) := PaperTrading.Run(s, inputs);
            Matches(s', Performance.ReplayFrom(r, events))
    decreases |inputs|
  {
    if |inputs| > 0 {
      var (s1, c) := PaperTrading.Step(s, inputs[0].price, inputs[0].signals);
      StepMatches(s, r, inputs[0]);
      PaperTrading.StepKeepsConsistent(s, inputs[0].price, inputs[0].signals);
      var r1 := Performance.ReplayFrom(r, PaperTrading.Logged(c));
      assert PaperTrading.AllSane(inputs[1..]) by {
        forall k | 0 <= k < |inputs| - 1 ensures PaperTrading.SanePrice(inputs[1..][k].price) {
          assert inputs[1..][k] == inputs[k + 1];
        }
      }
      RunMatches(s1, r1, inputs[1..]);
      var (s2, rest) := PaperTrading.Run(s1, inputs[1..]);
      Performance.ReplayAppend(r, PaperTrading.Logged(c), rest);
    }
  }

  /** From a fresh portfolio, the analyzer's cash is the bot's cash; when
      the bot ends flat and has closed a trade, the report's final capital
      and net profit are the bot's cash and its gain over 1000 dollars. */
  lemma ReplayReconstructsCash(inputs: seq<PaperTrading.Input>)
    requires PaperTrading.AllSane(inputs)
    ensures var (s', events) := PaperTrading.Run(PaperTrading.Initial, inputs);
            var r := Performance.ReplayFrom(Performance.Start, events);
            && r.cash == s'.cash
            && (!s'.inPosition && Performance.Analyze(r).Some? ==>
                  && Performance.Analyze(r).value.finalCapital == s'.cash
                  && Performance.Analyze(r).value.netProfit == s'.cash - 1000.0)
  {
    PaperTrading.InitialConsistent();
    RunMatches(PaperTrading.Initial, Performance.Start, inputs);
    var (s', events) := PaperTrading.Run(PaperTrading.Initial, inputs);
    var r := Performance.ReplayFrom(Performance.Start, events);
    assert Matches(s', r);
  }
}
