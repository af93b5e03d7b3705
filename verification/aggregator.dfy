/** The intelligence aggregator: queries the X, Fear & Greed and news
    sources in turn, each inside its own try/except, and returns a
    dictionary with one signal per source, neutral for a source that raised. */
module Aggregator {
  import opened Wrappers
  import opened Signals
  import Twitter
  import FearGreed
  import News

  datatype Source = XTwitter | FearAndGreed | NewsFeed

  /** The dictionary key of each source. */
  function Key(s: Source): string {
    match s
    case XTwitter => "twitter"
    case FearAndGreed => "fear_and_greed"
    case NewsFeed => "news"
  }

  /** Sources in the order they are queried. */
  const QueryOrder: seq<Source> := [XTwitter, FearAndGreed, NewsFeed]

  const Defaults: map<string, int> := map["twitter" := 0, "fear_and_greed" := 0, "news" := 0]

  /** What one source's call did. */
  datatype Outcome = Returned(value: int) | Raised

  function ValueOrNeutral(o: Outcome): int {
    if o.Returned? then o.value else 0
  }

  /** The try/except blocks, run over `sources` in order: each writes its
      own key, and a raise only affects that key. */
  function Query(sources: seq<Source>, outcome: Source -> Outcome, acc: map<string, int>): (m: map<string, int>)
    requires forall s :: Key(s) in acc
    ensures m.Keys == acc.Keys
    ensures forall s :: s in sources ==> m[Key(s)] == ValueOrNeutral(outcome(s))
    ensures forall k :: k in acc && (forall s :: s in sources ==> Key(s) != k) ==> m[k] == acc[k]
  {
    if |sources| == 0 then acc
    else
      var s := sources[0];
      var acc' := acc[Key(s) := ValueOrNeutral(outcome(s))];
      assert acc'.Keys == acc.Keys;
      var m := Query(sources[1..], outcome, acc');
      assert forall t :: t in sources ==> t == s || t in sources[1..];
      m
  }

  /** `get_all_sentiment_signals`: exactly the three keys, each holding its
      source's value, or 0 when that source raised. */
  function GetAllSentimentSignals(outcome: Source -> Outcome): (m: map<string, int>)
    ensures m.Keys == {"twitter", "fear_and_greed", "news"}
    ensures m["twitter"] == ValueOrNeutral(outcome(XTwitter))
    ensures m["fear_and_greed"] == ValueOrNeutral(outcome(FearAndGreed))
    ensures m["news"] == ValueOrNeutral(outcome(NewsFeed))
  {
    assert forall s :: Key(s) in Defaults;
    var m := Query(QueryOrder, outcome, Defaults);
    assert XTwitter in QueryOrder && FearAndGreed in QueryOrder && NewsFeed in QueryOrder;
    m
  }

  /** A failing source only affects its own key: the other two entries are
      the same whatever that source does. */
  lemma FailureIsolated(o1: Source -> Outcome, o2: Source -> Outcome, failing: Source)
    requires forall t :: t != failing ==> o1(t) == o2(t)
    ensures forall t :: t != failing ==>
              GetAllSentimentSignals(o1)[Key(t)] == GetAllSentimentSignals(o2)[Key(t)]
  {
    forall t | t != failing
      ensures GetAllSentimentSignals(o1)[Key(t)] == GetAllSentimentSignals(o2)[Key(t)]
    {
      assert o1(t) == o2(t);
      match t
      case XTwitter =>
      case FearAndGreed =>
      case NewsFeed =>
    }
  }

  /** A Fear & Greed answer whose first entry has an index of 70 but no
      classification raises, so the dictionary holds 0 for it, not 1. */
  lemma UnclassifiedIndexIsNeutral(x: int, news: int)
    ensures var fg := FearGreed.Interpret(FearGreed.Body(FearGreed.Entries([FearGreed.Entry(Some(70), false)])));
            fg.Raised? && Combine(x, fg, news)["fear_and_greed"] == 0
  {
  }

  // ---------------------------------------------------------------------------
  // The aggregator wired to the three analyzers of this model
  // ---------------------------------------------------------------------------

  /** Everything the outside world answers during one round. */
  datatype World = World(
    xClientOk: bool, xFetches: seq<Twitter.Fetch>,
    fgFetch: FearGreed.Fetch,
    newsKeySet: bool, newsResponse: News.Response)

  /** The two module-level caches that survive between rounds. */
  datatype Caches = Caches(x: Twitter.Cache, fg: FearGreed.Cache)

  /** What each source did, given the three analyzers' results: the X and
      news analyzers return their value, Fear & Greed may have raised. */
  function Outcomes(x: int, fg: FearGreed.Outcome, news: int): (o: Source -> Outcome)
    ensures o(XTwitter) == Returned(x) && o(NewsFeed) == Returned(news)
    ensures o(FearAndGreed) == (if fg.Returned? then Returned(fg.signal) else Raised)
  {
    (s: Source) =>
      match s
      case XTwitter => Returned(x)
      case FearAndGreed => if fg.Returned? then Returned(fg.signal) else Raised
      case NewsFeed => Returned(news)
  }

  /** The dictionary built from the three analyzers' results. */
  function Combine(x: int, fg: FearGreed.Outcome, news: int): (m: map<string, int>)
    ensures m.Keys == {"twitter", "fear_and_greed", "news"}
    ensures m["twitter"] == x && m["news"] == news
    ensures m["fear_and_greed"] == (if fg.Returned? then fg.signal else 0)
    ensures IsSignal(x) && IsSignal(news) && (fg.Returned? ==> IsSignal(fg.signal)) ==>
              forall k :: k in m ==> IsSignal(m[k])
  {
    GetAllSentimentSignals(Outcomes(x, fg, news))
  }

  /** One call of `get_all_sentiment_signals` with the real analyzers: the X
      and news analyzers catch their own errors, the Fear & Greed analyzer
      can raise (a `null` list, an unparseable index value or a missing
      classification), which the aggregator turns into 0. */
  function CollectSignals(w: World, c: Caches, now: int): (r: (map<string, int>, Caches))
    requires |w.xFetches| == |Twitter.TopTraders|
    ensures r.0.Keys == {"twitter", "fear_and_greed", "news"}
    ensures Twitter.ValidCache(c.x) ==>
              Twitter.ValidCache(r.1.x) && forall k :: k in r.0 ==> IsSignal(r.0[k])
    ensures r.0["news"] == News.GetNewsSentiment(w.newsKeySet, w.newsResponse)
  {
    var (x, xCache) := Twitter.GetTwitterSentiment(w.xClientOk, w.xFetches, c.x, now);
    var (fg, fgCache) := FearGreed.GetFearAndGreedIndex(c.fg, w.fgFetch, now);
    var news := News.GetNewsSentiment(w.newsKeySet, w.newsResponse);
    (Combine(x, fg, news), Caches(xCache, fgCache))
  }
}
