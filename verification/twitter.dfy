/** The X (Twitter) sentiment analyzer: keyword scoring of the recent tweets
    of six weighted traders, a ±3 threshold, and a 30-minute cache that
    answers for the API when it is rate-limited. Time is a number of
    seconds supplied by the caller. */
module Twitter {
  import opened Wrappers
  import opened Text
  import opened Signals

  const Positive: seq<string> := [
    "bullish", "buy", "buying", "opportunity", "support", "rally", "breakout",
    "optimistic", "long", "undervalued", "dip buying", "strong", "growth", "accumulating"
  ]
  const Negative: seq<string> := [
    "bearish", "sell", "selling", "risk", "resistance", "correction", "bubble",
    "pessimistic", "short", "overvalued", "dump", "weak", "crash", "scam"
  ]

  datatype Trader = Trader(id: string, name: string, weight: real)

  /** The traders, in the order they are queried, with their weights. */
  const TopTraders: seq<Trader> := [
    Trader("254333617", "Benjamin Cowen", 3.0),
    Trader("833521223354900480", "Will Clemente", 2.5),
    Trader("1044558696", "PlanB", 2.0),
    Trader("2361225846", "TechDev", 1.5),
    Trader("971162236", "Rekt Capital", 1.5),
    Trader("27647228", "Peter Brandt", 1.0)
  ]

  /** Thirty minutes, in seconds. */
  const CacheExpiration: int := 30 * 60

  /** A retweet: its lower-cased text starts with "rt @". */
  predicate IsRetweet(text: string) {
    StartsWith(Lower(text), "rt @")
  }

  /** `analizar_sentimiento_tweets`: the sum, over the tweets that are not
      retweets, of positive minus negative keywords present. */
  function TweetsScore(tweets: seq<string>): (r: int)
    ensures -14 * |tweets| <= r <= 14 * |tweets|
  {
    assert |Positive| == 14 && |Negative| == 14;
    if |tweets| == 0 then 0
    else
      var here := if IsRetweet(tweets[0]) then 0 else KeywordScore(Positive, Negative, tweets[0]);
      here + TweetsScore(tweets[1..])
  }

  /** The tweets that are not retweets, in order. */
  function Originals(tweets: seq<string>): (r: seq<string>)
    ensures |r| <= |tweets|
    ensures forall k :: 0 <= k < |r| ==> !IsRetweet(r[k]) && r[k] in tweets
  {
    if |tweets| == 0 then []
    else if IsRetweet(tweets[0]) then Originals(tweets[1..])
    else [tweets[0]] + Originals(tweets[1..])
  }

  /** A single tweet is kept iff it is not a retweet... */
  lemma OriginalsOne(t: string)
    ensures Originals([t]) == if IsRetweet(t) then [] else [t]
  {
  }

  /** ...and order is kept: consecutive batches of tweets concatenate. */
  lemma {:induction false} OriginalsAppend(a: seq<string>, b: seq<string>)
    ensures Originals(a + b) == Originals(a) + Originals(b)
    decreases |a|
  {
    if |a| > 0 {
      assert (a + b)[0] == a[0] && (a + b)[1..] == a[1..] + b;
      OriginalsAppend(a[1..], b);
    } else {
      assert a + b == b;
    }
  }

  /** Retweets contribute nothing: scoring all tweets is scoring the originals. */
  lemma {:induction false} RetweetsIgnored(tweets: seq<string>)
    ensures TweetsScore(tweets) == TweetsScore(Originals(tweets))
  {
    if |tweets| > 0 {
      RetweetsIgnored(tweets[1..]);
      if !IsRetweet(tweets[0]) {
        assert ([tweets[0]] + Originals(tweets[1..]))[1..] == Originals(tweets[1..]);
      }
    }
  }

  /** Scores of consecutive batches of tweets add up. */
  lemma {:induction false} TweetsScoreAppend(a: seq<string>, b: seq<string>)
    ensures TweetsScore(a + b) == TweetsScore(a) + TweetsScore(b)
  {
    if |a| == 0 {
      assert a + b == b;
    } else {
      assert (a + b)[0] == a[0] && (a + b)[1..] == a[1..] + b;
      TweetsScoreAppend(a[1..], b);
    }
  }

  /** A single tweet scores its keywords unless it is a retweet. */
  lemma TweetsScoreOne(t: string)
    ensures TweetsScore([t]) == if IsRetweet(t) then 0 else KeywordScore(Positive, Negative, t)
  {
    assert [t][1..] == [];
  }

  /** What the API answered for one trader. */
  datatype Fetch =
    | Tweets(texts: seq<string>)   // `response.data` (possibly empty)
    | NoData                       // `response.data` is None
    | RateLimited                  // `tweepy.errors.TooManyRequests`
    | ApiError                     // any other exception

  predicate Answered(f: Fetch) {
    f.Tweets? || f.NoData?
  }

  /** Request `k` is the first one that failed. */
  predicate FirstFailure(fetches: seq<Fetch>, k: int) {
    0 <= k < |fetches| && !Answered(fetches[k]) && forall j :: 0 <= j < k ==> Answered(fetches[j])
  }

  /** Outcome of the loop over the traders. */
  datatype Loop = Completed(total: real) | Interrupted(rateLimited: bool)

  /** The weighted loop with the tweet scoring `score`: each answered
      trader adds score × weight; the first failing request ends the loop. */
  function WeightedTotalBy(traders: seq<Trader>, fetches: seq<Fetch>, score: seq<string> -> int): (r: Loop)
    requires |fetches| == |traders|
    ensures r.Completed? <==> forall k :: 0 <= k < |fetches| ==> Answered(fetches[k])
    ensures r.Interrupted? ==> exists k :: FirstFailure(fetches, k) && r.rateLimited == fetches[k].RateLimited?
  {
    if |traders| == 0 then Completed(0.0)
    else
      match fetches[0]
      case RateLimited => Interrupted(true)
      case ApiError => Interrupted(false)
      case NoData => WeightedTotalBy(traders[1..], fetches[1..], score)
      case Tweets(ts) =>
        var rest := WeightedTotalBy(traders[1..], fetches[1..], score);
        if rest.Completed?
        then Completed(score(ts) as real * traders[0].weight + rest.total)
        else rest
  }

  /** Running the loop over two groups of traders in turn: the first group's
      failure ends it, otherwise the second group's, otherwise the totals add. */
  function Chain(a: Loop, b: Loop): Loop {
    if a.Interrupted? then a else if b.Interrupted? then b else Completed(a.total + b.total)
  }

  /** One trader: tweets add score × weight, no data adds nothing, a rate
      limit or any other error interrupts the loop. */
  lemma WeightedTotalOne(tr: Trader, f: Fetch, score: seq<string> -> int)
    ensures WeightedTotalBy([tr], [f], score) == match f
      case Tweets(ts) => Completed(score(ts) as real * tr.weight)
      case NoData => Completed(0.0)
      case RateLimited => Interrupted(true)
      case ApiError => Interrupted(false)
  {
    assert [tr][1..] == [] && [f][1..] == [];
  }

  /** The loop over consecutive groups of traders is the chained loop over
      each, so the completed total is the sum of score × weight over the
      answered traders. */
  lemma {:induction false} WeightedTotalAppend(t1: seq<Trader>, f1: seq<Fetch>, t2: seq<Trader>, f2: seq<Fetch>, score: seq<string> -> int)
    requires |f1| == |t1| && |f2| == |t2|
    ensures WeightedTotalBy(t1 + t2, f1 + f2, score)
            == Chain(WeightedTotalBy(t1, f1, score), WeightedTotalBy(t2, f2, score))
    decreases |t1|
  {
    if |t1| == 0 {
      assert t1 + t2 == t2 && f1 + f2 == f2;
    } else {
      assert (t1 + t2)[0] == t1[0] && (t1 + t2)[1..] == t1[1..] + t2;
      assert (f1 + f2)[0] == f1[0] && (f1 + f2)[1..] == f1[1..] + f2;
      WeightedTotalAppend(t1[1..], f1[1..], t2, f2, score);
      var a, b := WeightedTotalBy(t1[1..], f1[1..], score), WeightedTotalBy(t2, f2, score);
      if f1[0].Tweets? {
        ChainAdds(score(f1[0].texts) as real * t1[0].weight, a, b);
      }
    }
  }

  /** Adding one trader's contribution in front commutes with chaining. */
  lemma ChainAdds(v: real, a: Loop, b: Loop)
    ensures Chain(if a.Completed? then Completed(v + a.total) else a, b)
            == (var c := Chain(a, b); if c.Completed? then Completed(v + c.total) else c)
  {
  }

  /** The loop of `get_twitter_sentiment`, scoring with `TweetsScore`. */
  function WeightedTotal(traders: seq<Trader>, fetches: seq<Fetch>): (r: Loop)
    requires |fetches| == |traders|
    ensures r.Completed? <==> forall k :: 0 <= k < |fetches| ==> Answered(fetches[k])
    ensures r.Interrupted? ==> exists k :: FirstFailure(fetches, k) && r.rateLimited == fetches[k].RateLimited?
  {
    WeightedTotalBy(traders, fetches, TweetsScore)
  }

  /** With any scoring that gives nothing to no tweets, answering with an
      empty list is the same as answering with no data. */
  lemma {:induction false} EmptyAnswerIsNoData(traders: seq<Trader>, fetches: seq<Fetch>, k: nat, score: seq<string> -> int)
    requires |fetches| == |traders| && k < |fetches| && fetches[k] == Tweets([]) && score([]) == 0
    ensures WeightedTotalBy(traders, fetches, score) == WeightedTotalBy(traders, fetches[k := NoData], score)
  {
    var g := fetches[k := NoData];
    if k == 0 {
      assert g[1..] == fetches[1..];
    } else {
      assert g[0] == fetches[0];
      assert g[1..] == fetches[1..][k - 1 := NoData];
      EmptyAnswerIsNoData(traders[1..], fetches[1..], k - 1, score);
    }
  }

  /** A trader with no tweets contributes nothing. */
  lemma EmptyTweetsContributeNothing(traders: seq<Trader>, fetches: seq<Fetch>, k: nat)
    requires |fetches| == |traders| && k < |fetches| && fetches[k] == Tweets([])
    ensures WeightedTotal(traders, fetches) == WeightedTotal(traders, fetches[k := NoData])
  {
    assert TweetsScore([]) == 0;
    EmptyAnswerIsNoData(traders, fetches, k, TweetsScore);
  }

  /** The module-level cache: last signal and when it was computed. */
  datatype Cache = Cache(signal: int, timestamp: Option<int>)

  const InitialCache: Cache := Cache(0, None)

  predicate ValidCache(c: Cache) {
    IsSignal(c.signal)
  }

  /** The cache answers at time `now` iff it was written less than 30
      minutes ago. */
  predicate Fresh(c: Cache, now: int) {
    c.timestamp.Some? && now - c.timestamp.value < CacheExpiration
  }

  /** `get_twitter_sentiment`: the signal and the cache after the call.
      `clientOk` is false when there is no bearer token or the client
      cannot be built; `fetches[k]` is the answer for `TopTraders[k]`
      (answers after the first failure are never requested). */
  function GetTwitterSentiment(clientOk: bool, fetches: seq<Fetch>, cache: Cache, now: int): (r: (int, Cache))
    requires |fetches| == |TopTraders|
    ensures ValidCache(cache) ==> IsSignal(r.0) && ValidCache(r.1)
    ensures !clientOk ==> r == (0, cache)
    ensures r.1 != cache ==> r.1 == Cache(r.0, Some(now))
    ensures clientOk && WeightedTotal(TopTraders, fetches).Completed? ==>
              r.0 == Inclusive(WeightedTotal(TopTraders, fetches).total, 3.0)
              && r.1 == Cache(r.0, Some(now))
    ensures clientOk && WeightedTotal(TopTraders, fetches) == Interrupted(true) ==>
              r == (if Fresh(cache, now) then cache.signal else 0, cache)
    ensures clientOk && WeightedTotal(TopTraders, fetches) == Interrupted(false) ==>
              r == (0, cache)
  {
    if !clientOk then (0, cache)
    else
      match WeightedTotal(TopTraders, fetches)
      case Completed(total) =>
        var signal := Inclusive(total, 3.0);
        (signal, Cache(signal, Some(now)))
      case Interrupted(rateLimited) =>
        if rateLimited && Fresh(cache, now) then (cache.signal, cache) else (0, cache)
  }

  /** After a successful call at time `t1`, a rate-limited call at `t2`
      repeats the same signal while less than 30 minutes have passed, and
      falls back to neutral afterwards. */
  lemma CacheServesRateLimit(
    fetches1: seq<Fetch>, fetches2: seq<Fetch>, cache: Cache, t1: int, t2: int)
    requires |fetches1| == |TopTraders| && |fetches2| == |TopTraders|
    requires WeightedTotal(TopTraders, fetches1).Completed?
    requires WeightedTotal(TopTraders, fetches2) == Interrupted(true)
    ensures var (s1, c1) := GetTwitterSentiment(true, fetches1, cache, t1);
            var (s2, c2) := GetTwitterSentiment(true, fetches2, c1, t2);
            c2 == c1 && (s2 == if t2 - t1 < CacheExpiration then s1 else 0)
  {
  }
}
