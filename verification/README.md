# bot-trading-ia in Dafny

A model of the trading logic of the bot-trading-ia repository, a set of Python
scripts that trade bitcoin on paper. The model covers:

- **The paper-trading bot** (`paper_trading_bot.py`). It keeps a virtual
  portfolio and runs one decision cycle per invocation. A cycle does the
  following, in order:
  - stops at 50 trades;
  - aborts without a price;
  - closes an open position on its stop-loss (1.5% below the entry) or its
    take-profit (3% above);
  - otherwise weighs the model's prediction and three sentiment signals into
    a confluence score. A score of ±3.0 opens or closes a 20-dollar position.
- **The three sentiment sources and their aggregator.**
  - X/Twitter: keyword scoring of six weighted traders' tweets, with a
    30-minute cache that answers when the API is rate-limited.
  - Fear & Greed index: thresholds 65 and 25, with a 10-minute cache.
  - News: keyword scoring of article titles.
  - The aggregator turns a failing source into a neutral 0 for that source
    only.
- **The YouTube transcript sentiment**, the valuable-video filter and the
  strategy-summary processor.
- **Telegram messages**: the Markdown text of the buy and sell notifications.
- **The performance analyzer.** It replays the paper bot's trade log into
  cash, an equity history and the win-rate, profit-factor and average-win and
  average-loss metrics. A cross-module lemma shows that the replay gives back
  the bot's own cash.
- **The two all-in bots**: the scheduler and the real-time bot. The real-time
  bot also sends market orders.
- **The SMA-crossover backtest**, and the crossover signal simulation with
  its de-duplication and return sum.
- **The prediction script**: its `cruce` feature, its guards and its label
  maps.
- **The project exporter**: the pruned directory walk, the extension filter,
  the size limit and the cell truncation.

Design choices:

- Every source of input is a parameter of the model:
  - prices and indicator values;
  - the model's prediction;
  - API answers, and whether a call raised;
  - the clock, as integer seconds;
  - directory listings and file contents.
- An exception the code catches is a constructor of a result datatype.
- Money and prices are exact reals.
- The paper bot's confluence score is kept in integer half-units. Lemma
  `ScoreIsDoubled` ties it to the code's 2 / 1.5 / 1 / 0.5 weights.

## Model

| member | source | states |
|---|---|---|
| Signals.Inclusive | scripts/twitter_analyzer.py:91-96 | the signal is 1 iff the total reaches +t, -1 iff it reaches -t, otherwise 0 |
| Signals.Strict | youtube_scraper/analizar_transcripciones.py:84-92 | the signal is 1 iff the total is strictly above t, -1 iff strictly below -t |
| Signals.InclusiveMonotone | scripts/twitter_analyzer.py:91-96 | a larger total never gives a more bearish signal |
| Signals.InclusiveOdd | scripts/news_analyzer.py:81-89 | negating the total negates the signal: the thresholds are symmetric |
| Signals.StrictMonotone | youtube_scraper/analizar_transcripciones.py:84-92 | the strict thresholds are monotone too |
| Signals.StrictOdd | youtube_scraper/analizar_transcripciones.py:84-92 | the strict thresholds are symmetric |
| Signals.Hits | scripts/news_analyzer.py:31-36 | the number of keywords present is 0 iff none occurs, and is the list's length iff all occur |
| Signals.HitsAppend | scripts/twitter_analyzer.py:65-66 | counting over two keyword lists adds the two counts |
| Signals.PresentSnoc | scripts/twitter_analyzer.py:65 | one more keyword adds its position to the present ones iff it occurs |
| Signals.HitsCountsPresent | scripts/news_analyzer.py:31-36 | the hit count is the number of keyword positions whose keyword occurs in the text |
| Signals.KeywordScore | youtube_scraper/analizar_transcripciones.py:23-39 | positive minus negative keyword hits lies between -|neg| and |pos|; its value is fixed by Signals.KeywordScoreCountsPresent, Signals.KeywordScoreOne and Signals.KeywordScoreAppend |
| Signals.KeywordScoreCountsPresent | youtube_scraper/analizar_transcripciones.py:28-39 | the score is the number of positive keywords present in the lower-cased text minus the number of negative ones present |
| Signals.KeywordScoreOne | youtube_scraper/analizar_transcripciones.py:31-37 | one positive keyword scores 1 iff it occurs in the lower-cased text, one negative keyword -1 iff it occurs, and 0 otherwise |
| Signals.KeywordScoreAppend | youtube_scraper/analizar_transcripciones.py:31-37 | splitting the positive and the negative lists splits the score into the sum of the parts' scores |
| Signals.KeywordScoreIgnoresCase | youtube_scraper/analizar_transcripciones.py:29 | scoring an already lower-cased text gives the same score |
| Signals.KeywordScoreNoHits | scripts/news_analyzer.py:31-36 | a text with no keyword scores 0 |
| Text.LowerChar | scripts/twitter_analyzer.py:63 | upper-case letters move 32 code points down to lower case, everything else is unchanged |
| Text.Lower | scripts/twitter_analyzer.py:63 | `lower()` keeps the length and maps each character |
| Text.LowerIdempotent | procesar_estrategias.py:30-39 | lower-casing twice is lower-casing once |
| Text.Contains | scripts/news_analyzer.py:32 | `pat in s` holds iff `pat` occurs at some index |
| Text.Find | scripts/news_analyzer.py:32 | the first occurrence at or after `from`: it occurs there, nowhere before, and None means nowhere |
| Text.TrimLeft | procesar_estrategias.py:16 | leading whitespace is removed and nothing else |
| Text.TrimRight | procesar_estrategias.py:16 | trailing whitespace is removed and nothing else |
| Text.Strip | procesar_estrategias.py:16 | `strip()` is a slice of the line that keeps no whitespace at either end and drops only whitespace |
| Text.StripFixed | procesar_estrategias.py:16 | a line with no whitespace at either end is its own strip |
| Text.StripIdempotent | youtube_scraper/filtrar_videos_valiosos.py:7 | stripping twice is stripping once |
| Text.StripEmptyIffBlank | procesar_estrategias.py:16-18 | a line is skipped exactly when every character is whitespace |
| Text.Split | youtube_scraper/analizar_transcripciones.py:66 | `split(sep)` yields at least one piece; the pieces are fixed by Text.SplitJoin, Text.SplitPiecesAvoidSeparator and Text.SplitLeftmost, as Text.SplitUnique proves |
| Text.SplitJoin | youtube_scraper/analizar_transcripciones.py:66 | joining the pieces of `split(sep)` with `sep` gives back the text |
| Text.SplitPiecesAvoidSeparator | youtube_scraper/analizar_transcripciones.py:66 | no piece of a split contains the separator |
| Text.SplitLeftmost | youtube_scraper/filtrar_videos_valiosos.py:7 | every cut is at the leftmost occurrence still ahead: no occurrence of `sep` starts inside a piece before the last, even one overlapping the next separator |
| Text.FindAfterPiece | youtube_scraper/filtrar_videos_valiosos.py:7 | in `h + sep + t` the first occurrence of `sep` is right after `h` when none starts inside `h` |
| Text.SplitUnique | youtube_scraper/filtrar_videos_valiosos.py:7 | any pieces that join to the text, whose last piece avoids `sep` and whose other pieces are cut at the leftmost occurrence, are the split |
| Text.JoinSplit | scripts/notifier.py:38-45 | splitting on a one-character separator undoes a join of separator-free pieces |
| Text.SplitWithoutSeparator | youtube_scraper/filtrar_videos_valiosos.py:7 | a text without the separator splits into itself alone |
| Text.FindWholeWord | youtube_scraper/filtrar_videos_valiosos.py:19 | the leftmost `\b{kw}\b` match, and None only when there is none |
| Text.ContainsWholeWord | youtube_scraper/filtrar_videos_valiosos.py:19 | `re.search(rf"\b{kw}\b", s)` succeeds iff a whole-word occurrence exists |
| Text.WholeWordIsSubstring | youtube_scraper/filtrar_videos_valiosos.py:19 | a whole-word match is a substring match |
| Twitter.TweetsScore | scripts/twitter_analyzer.py:59-68 | the score of n tweets lies within ±14·n; its value is fixed by Twitter.TweetsScoreOne and Twitter.TweetsScoreAppend |
| Twitter.Originals | scripts/twitter_analyzer.py:64 | the kept tweets are tweets of the input that are not retweets; that every other tweet is kept, in order, by Twitter.OriginalsOne and Twitter.OriginalsAppend |
| Twitter.OriginalsOne | scripts/twitter_analyzer.py:64 | a single tweet is kept iff its lower-cased text does not start with "rt @" |
| Twitter.OriginalsAppend | scripts/twitter_analyzer.py:62-64 | the originals of consecutive batches concatenate, so order is kept |
| Twitter.RetweetsIgnored | scripts/twitter_analyzer.py:63-64 | scoring all tweets equals scoring only the non-retweets |
| Twitter.TweetsScoreAppend | scripts/twitter_analyzer.py:62-67 | scores of consecutive batches of tweets add up |
| Twitter.TweetsScoreOne | scripts/twitter_analyzer.py:63-67 | a single tweet scores 0 if it is a retweet and its positive-minus-negative keyword score otherwise |
| Twitter.WeightedTotalBy | scripts/twitter_analyzer.py:81-87 | the loop completes iff every request answered; otherwise it stopped at the first failure, rate-limited or not as that request was; the completed total is fixed by Twitter.WeightedTotalOne and Twitter.WeightedTotalAppend |
| Twitter.WeightedTotalOne | scripts/twitter_analyzer.py:83-87 | one trader: tweets add score × weight, no data adds 0, a rate limit or another error interrupts |
| Twitter.WeightedTotalAppend | scripts/twitter_analyzer.py:81-87 | the loop over consecutive groups of traders is the first group's failure, else the second's, else the sum of the two totals |
| Twitter.ChainAdds | scripts/twitter_analyzer.py:86-87 | adding one trader's contribution in front commutes with running the next group |
| Twitter.WeightedTotal | scripts/twitter_analyzer.py:81-87 | the same, with the tweet scoring of the analyzer: Σ TweetsScore × weight over the answered traders by Twitter.WeightedTotalOne and Twitter.WeightedTotalAppend |
| Twitter.EmptyAnswerIsNoData | scripts/twitter_analyzer.py:84-85 | a trader answering with no tweets changes nothing, for any scoring that gives 0 to no tweets |
| Twitter.EmptyTweetsContributeNothing | scripts/twitter_analyzer.py:61 | the analyzer's empty-tweet case adds nothing to the weighted total |
| Twitter.GetTwitterSentiment | scripts/twitter_analyzer.py:70-115 | no client gives 0. A completed loop gives the ±3 signal and refreshes the cache. A rate limit gives the cached signal while it is under 30 minutes old, else 0. Other errors give 0. The cache only changes on success. |
| Twitter.CacheServesRateLimit | scripts/twitter_analyzer.py:103-111 | after a success, a rate-limited call repeats the same signal for 30 minutes and then falls back to 0 |
| News.ArticleScore | scripts/news_analyzer.py:27-36 | an article raises iff its title is null; otherwise it scores the keyword score of its title, 0 for a missing title, within the keyword bounds |
| News.EmptyTitleScoresZero | scripts/news_analyzer.py:28-29 | skipping an empty title agrees with scoring it: no keyword occurs in it |
| News.SumScores | scripts/news_analyzer.py:26-37 | the sum raises iff some article's score raises, and is bounded by ±14 per article; its value is fixed by News.SumScoresOne and News.SumScoresAppend |
| News.SumScoresOne | scripts/news_analyzer.py:26-36 | one article's sum is its score |
| News.SumScoresAppend | scripts/news_analyzer.py:26-37 | the sums of consecutive batches add, and raise when either raises |
| News.ZeroScoreIgnored | scripts/news_analyzer.py:28-29 | an article scoring 0 can be removed without changing the sum |
| News.NewsScore | scripts/news_analyzer.py:20-37 | the analyzer raises iff some title is null; its total lies within ±14 per article; with News.NewsScoreOne and News.SumScoresAppend it is the sum of the article scores |
| News.NewsScoreOne | scripts/news_analyzer.py:26-37 | the score of one article is that article's score |
| News.UntitledArticlesIgnored | scripts/news_analyzer.py:27-29 | an article with a missing or empty title changes nothing |
| News.GetNewsSentiment | scripts/news_analyzer.py:39-94 | a missing key, an API error or no articles give 0; the signal is 1 iff the score is at least 2 and -1 iff at most -2 |
| FearGreed.IndexSignal | scripts/fear_and_greed_analyzer.py:50-58 | an index above 65 gives 1, below 25 gives -1, 25..65 gives 0 |
| FearGreed.IndexSignalMonotone | scripts/fear_and_greed_analyzer.py:50-58 | a higher index never gives a more bearish signal |
| FearGreed.Interpret | scripts/fear_and_greed_analyzer.py:45-61 | a null payload, a missing 'data' or an empty list gives 0; a null 'data' (`len(None)`), an unparseable first value or a first entry without 'value_classification' raises; otherwise the first entry's signal |
| FearGreed.OnlyFirstEntryMatters | scripts/fear_and_greed_analyzer.py:46 | entries after the first never change the outcome |
| FearGreed.GetFearAndGreedIndex | scripts/fear_and_greed_analyzer.py:28-43 | a cache under 10 minutes old answers with no request; a failed request gives 0 and keeps the cache; a received answer is interpreted and cached with the current time |
| FearGreed.SecondCallUsesCache | scripts/fear_and_greed_analyzer.py:30-32 | a second call within 10 minutes of a fetch gives the same outcome and leaves the cache unchanged |
| Aggregator.Query | scripts/intelligence_aggregator.py:33-49 | each queried source's key holds its value, or 0 if it raised, and the other keys are untouched |
| Aggregator.GetAllSentimentSignals | scripts/intelligence_aggregator.py:16-52 | exactly the three keys, each holding its source's value or 0 when that source raised |
| Aggregator.FailureIsolated | scripts/intelligence_aggregator.py:33-49 | a failing source only affects its own key |
| Aggregator.UnclassifiedIndexIsNeutral | scripts/intelligence_aggregator.py:39-43 | a first entry with index 70 but no classification raises in the analyzer and the dictionary holds 0 for Fear & Greed |
| Aggregator.Outcomes | scripts/intelligence_aggregator.py:34-46 | the X and news analyzers return their value; Fear & Greed returns or raises |
| Aggregator.Combine | scripts/intelligence_aggregator.py:27-52 | the dictionary holds the X and news values and the Fear & Greed signal, or 0 when it raised; all values are signals when the inputs are |
| Aggregator.CollectSignals | scripts/intelligence_aggregator.py:16-52 | one round with the real analyzers yields the three keys, all in -1..1 when the X cache is valid, with the news value passed through |
| YoutubeSentiment.PhraseScore | youtube_scraper/analizar_transcripciones.py:23-39 | a phrase scores between -18 and 20; its value by YoutubeSentiment.PhraseScoreCountsPresent |
| YoutubeSentiment.PhraseScoreCountsPresent | youtube_scraper/analizar_transcripciones.py:28-39 | a phrase scores the number of positive keywords in its lower-cased text minus the number of negative ones |
| YoutubeSentiment.TallyPhrases | youtube_scraper/analizar_transcripciones.py:67-70 | at most one phrase counted per piece; the total is within the per-phrase bounds; no counted phrase means a total of 0; the tally itself by YoutubeSentiment.TallyPhrasesOne and YoutubeSentiment.TallyPhrasesAppend |
| YoutubeSentiment.TallyPhrasesOne | youtube_scraper/analizar_transcripciones.py:68-70 | one phrase adds its score and one to the count iff it is longer than ten characters once stripped |
| YoutubeSentiment.TallyPhrasesAppend | youtube_scraper/analizar_transcripciones.py:67-70 | the tallies of consecutive phrases add up |
| YoutubeSentiment.TallyEntries | youtube_scraper/analizar_transcripciones.py:56-72 | no counted phrase means a total of 0; the tally itself by YoutubeSentiment.TallyEntriesOne and YoutubeSentiment.TallyEntriesAppend |
| YoutubeSentiment.TallyEntriesOne | youtube_scraper/analizar_transcripciones.py:57-72 | one entry adds the tally of its text iff it is a `.txt` file that could be read, nothing otherwise |
| YoutubeSentiment.TallyEntriesAppend | youtube_scraper/analizar_transcripciones.py:56-72 | the tallies of consecutive parts of the listing add up |
| YoutubeSentiment.Transcripts | youtube_scraper/analizar_transcripciones.py:57-58 | only `.txt` entries of the listing are kept; that every one is kept, in order, by YoutubeSentiment.TranscriptsOne and YoutubeSentiment.TranscriptsAppend |
| YoutubeSentiment.TranscriptsOne | youtube_scraper/analizar_transcripciones.py:57-58 | a single entry is kept iff its name ends in ".txt" |
| YoutubeSentiment.TranscriptsAppend | youtube_scraper/analizar_transcripciones.py:56-58 | the transcripts of consecutive parts of the listing concatenate, so order is kept |
| YoutubeSentiment.OnlyTranscriptsCount | youtube_scraper/analizar_transcripciones.py:57-58 | entries that are not `.txt` contribute nothing |
| YoutubeSentiment.GetYoutubeSentiment | youtube_scraper/analizar_transcripciones.py:41-92 | a missing or empty directory gives 0; the signal is 1 iff the total is above 2 and -1 iff below -2 |
| PaperTrading.InitialConsistent | paper_trading_bot.py:42-47 | the initial portfolio of 1000 dollars with no position is consistent |
| PaperTrading.BracketOrdered | paper_trading_bot.py:72-73 | in an open position the stop-loss is below the entry and the take-profit above it |
| PaperTrading.Buy | paper_trading_bot.py:65-78 | the holding is worth 20 dollars at the price; cash drops by 20; the count rises by one; the bracket is set around the entry |
| PaperTrading.Sell | paper_trading_bot.py:80-92 | cash rises by the sale value; the P&L is that value minus 20; all position fields are cleared |
| PaperTrading.TradeKeepsValue | paper_trading_bot.py:65-92 | a buy or a sell at the market price keeps cash plus holding value unchanged |
| PaperTrading.Score | paper_trading_bot.py:135-151 | the half-unit score lies in -10..10 |
| PaperTrading.ScoreIsDoubled | paper_trading_bot.py:135-160 | the half-unit score is twice the code's weighted sum, so the ±3.0 thresholds are ±6 half-units |
| PaperTrading.BuyThreshold | paper_trading_bot.py:135-156 | exactly which signal combinations reach the buy threshold; a down prediction never does |
| PaperTrading.SellThreshold | paper_trading_bot.py:135-160 | exactly which combinations reach the sell threshold; an up prediction never does |
| PaperTrading.Step | paper_trading_bot.py:95-167 | the cap, the missing or zero price, the stop-loss and take-profit exits, a failure to fetch signals, and the confluence buy, sell or hold, each with the exact condition under which it happens |
| PaperTrading.StepKeepsConsistent | paper_trading_bot.py:95-167 | every cycle keeps the portfolio consistent |
| PaperTrading.StepCountsBuys | paper_trading_bot.py:70 | the trade count rises by one exactly when a position is opened |
| PaperTrading.Logged | paper_trading_bot.py:74-91 | a cycle logs one buy line iff it opened, one sell line iff it closed, and nothing otherwise |
| PaperTrading.Run | paper_trading_bot.py:95-167 | over n cycles at most n trade lines are logged |
| PaperTrading.StepFlips | paper_trading_bot.py:112-163 | a cycle flips the position exactly when it logs a trade, which is a sell if it was open and a buy if not |
| PaperTrading.RunAlternates | paper_trading_bot.py:95-167 | over any run the logged trades alternate, the portfolio stays consistent, and the position is open iff an odd number of trades flipped it |
| PaperTrading.RunRespectsCap | paper_trading_bot.py:101-103 | no run exceeds 50 trades |
| Performance.Apply | scripts/performance_analyzer.py:41-65 | a buy costs 20. A sell adds the last buy value plus the P&L. A sell is recorded, with P&L/20·100 percent, and extends the history only after a buy. |
| Performance.ReplayFrom | scripts/performance_analyzer.py:34-65 | the replay keeps a non-empty history and a last buy value of 20 once a buy is seen |
| Performance.ReplaySnoc | scripts/performance_analyzer.py:40-41 | replaying one more line is applying it to the replay so far |
| Performance.ReplayAppend | scripts/performance_analyzer.py:40-41 | replaying a concatenated log is replaying its parts in turn |
| Performance.CashAfterBuy | scripts/performance_analyzer.py:45-59 | after a buy the cash is the start minus 20 per buy, plus 20 and the P&L per sell |
| Performance.ClosedPercents | scripts/performance_analyzer.py:67-74 | the closed-trade percentages are empty iff no trade is closed; which ones, in order, by Performance.ClosedPercentsOne and Performance.ClosedPercentsAppend |
| Performance.ClosedPercentsOne | scripts/performance_analyzer.py:74 | a single trade contributes its percentage iff it is a closed (SELL) trade |
| Performance.ClosedPercentsAppend | scripts/performance_analyzer.py:74 | the percentages of consecutive trades concatenate in order |
| Performance.Wins | scripts/performance_analyzer.py:77 | the wins are all strictly positive; empty iff no trade is positive; which ones, in order, by Performance.WinsLossesOne and Performance.WinsAppend |
| Performance.Losses | scripts/performance_analyzer.py:78 | the losses are all at most zero; empty iff every trade is positive; which ones, in order, by Performance.WinsLossesOne and Performance.LossesAppend |
| Performance.WinsLossesOne | scripts/performance_analyzer.py:77-78 | a single percentage is a win iff it is above zero and a loss iff it is zero or below |
| Performance.WinsAppend | scripts/performance_analyzer.py:77 | the wins of consecutive lists concatenate in order |
| Performance.LossesAppend | scripts/performance_analyzer.py:78 | the losses of consecutive lists concatenate in order |
| Performance.WinsLossesPartition | scripts/performance_analyzer.py:77-78 | wins and losses split the trades: the counts and the sums add up |
| Performance.SumPositive | scripts/performance_analyzer.py:82 | a sum of wins is non-negative, and positive when there is one |
| Performance.SumNonPositive | scripts/performance_analyzer.py:83 | a sum of losses is at most zero |
| Performance.ProfitFactor | scripts/performance_analyzer.py:85 | the factor is infinite iff the total loss is not positive; otherwise it times the loss is the profit |
| Performance.WinRate | scripts/performance_analyzer.py:80 | the win rate is in 0..100; it is 100 iff every trade wins and 0 iff none does; a hundredth of it is the share of wins among the closed trades |
| Performance.Factors | scripts/performance_analyzer.py:82-85 | the profit factor is infinite iff the losses sum to 0, and never negative; when finite it is the sum of the wins over the absolute sum of the losses |
| Performance.MeanSign | scripts/performance_analyzer.py:87-88 | a mean has the sign of its sum |
| Performance.Averages | scripts/performance_analyzer.py:87-88 | the average win is non-negative (positive when there is a win) and the average loss at most zero; each is the mean of its side, 0 when that side is empty |
| Performance.Analyze | scripts/performance_analyzer.py:67-92 | no report iff no trade closed; otherwise the report counts the closed trades and holds Performance.WinRate, Performance.Factors and Performance.Averages of their percentages, with final capital the last history value and net profit and percent consistent with it |
| Performance.FinalCapitalIsCash | scripts/performance_analyzer.py:65-90 | for a log from a buy to a final sell, the reported final capital is the replayed cash |
| Performance.KeepsBuy | scripts/performance_analyzer.py:51-61 | a recorded buy stays recorded |
| Reconcile.StepMatches | scripts/performance_analyzer.py:45-65 | replaying one cycle's log lines keeps the analyzer's cash equal to the bot's |
| Reconcile.RunMatches | scripts/performance_analyzer.py:40-65 | the same over any run of the bot |
| Reconcile.ReplayReconstructsCash | scripts/performance_analyzer.py:34-92 | from a fresh portfolio the analyzer's cash is the bot's cash; a flat bot's report shows that cash as final capital and its gain over 1000 as net profit |
| AllIn.InitialAllInOrOut | scripts/scheduler.py:28-32 | the initial state holds 1000 dollars and no bitcoin |
| AllIn.Enter | scripts/scheduler.py:112-117 | after a buy there is no cash and the bitcoin is worth the old capital at the price |
| AllIn.Exit | scripts/scheduler.py:120-125 | after a sell there is no bitcoin and the capital is its value at the price |
| AllIn.RoundTripAtSamePrice | scripts/scheduler.py:112-125 | a buy and a sell at the same price give back the capital |
| AllIn.RoundTripReturn | scripts/scheduler.py:112-125 | a buy at p and a sell at q scale the capital by q/p |
| AllIn.Trades | scripts/scheduler.py:134-143 | the logged outcomes are only buys and sells; that every one is logged, in order, by AllIn.TradesOne and AllIn.TradesAppend |
| AllIn.TradesOne | scripts/scheduler.py:112-132 | one cycle logs its outcome iff it bought or sold |
| AllIn.TradesAppend | scripts/scheduler.py:146-162 | the trades of consecutive runs of cycles concatenate, so order is kept and none is lost |
| Scheduler.Cycle | scripts/scheduler.py:96-132 | no data changes nothing; a buy happens iff the prediction is 1 while flat, a sell iff it is 0 while in; the log line carries the last close and the balance |
| Scheduler.CycleKeepsAllInOrOut | scripts/scheduler.py:112-125 | the bot is always all in or all out |
| Scheduler.Run | scripts/scheduler.py:150-162 | one outcome per cycle |
| Scheduler.RunAlternates | scripts/scheduler.py:146-162 | logged trades alternate buy and sell from the starting position, and the state stays all in or all out |
| RealTimeBot.Cycle | scripts/real_time_bot.py:94-130 | the scheduler's rule, plus: a failed order changes nothing; a zero price on a buy raises and changes nothing; each trade happens under exactly its condition |
| RealTimeBot.CycleKeepsAllInOrOut | scripts/real_time_bot.py:106-128 | all in or all out whatever the exchange answers |
| RealTimeBot.SimulationIsScheduler | scripts/real_time_bot.py:106-130 | with orders switched off the answer of the exchange is irrelevant and the decision is the scheduler's |
| RealTimeBot.AcceptedOrderIsSimulation | scripts/real_time_bot.py:108-127 | an accepted order gives the same outcome as sending none |
| Predict.TextOf | predict.py:20-23 | 1, -1 and 0 map to Sube, Baja and Estable, anything else to Desconocido |
| Predict.RecommendationOf | predict.py:25-28 | 1, -1 and 0 map to COMPRAR, VENDER and ESPERAR, anything else to SIN RECOMENDACIÓN |
| Predict.LabelsAgree | predict.py:20-28 | the label and the recommendation determine each other |
| Predict.CruceAt | predict.py:74-78 | `cruce` is 1 iff the averages cross upward, -1 iff downward, with missing values never crossing |
| Predict.CruceNeedsBothRows | predict.py:75-77 | a missing average on either row gives 0 |
| Predict.Run | predict.py:31-116 | a prediction is made iff the model loaded, at least 51 rows arrived, no feature is missing and the model answered; the label and recommendation are those of the answer |
| Backtest.CrossingsExclusive | backtest.py:42-65 | an upward and a downward crossing never coincide, and equal averages trigger neither |
| Backtest.Step | backtest.py:41-81 | an upward crossing while flat converts all capital to coins; a downward crossing while long converts back; otherwise nothing changes |
| Backtest.StepSound | backtest.py:41-81 | each iteration keeps the trade list alternating and the balances consistent |
| Backtest.UptoSound | backtest.py:40 | every prefix of the loop is sound |
| Backtest.FinalBalanceFacts | backtest.py:84-87 | the final balance is positive: the last sell's balance (1000 with no trade), or the last buy's balance moved with the price |
| Backtest.ProfitPercent | backtest.py:92 | the profit percent times 1000 is 100 times the gain |
| Backtest.SimulateSound | backtest.py:40-81 | the state after the loop is sound |
| Backtest.Run | backtest.py:33-92 | the trades alternate starting with a buy; the final balance and the profit follow the facts above |
| CrossoverSim.SignalAt | simulate_trading.py:74-87 | BUY iff an upward crossing with RSI below 70, SELL iff a downward crossing with RSI above 30, none on the first row |
| CrossoverSim.Extract | simulate_trading.py:90 | at most one signal per row; which signals and in which order, by CrossoverSim.ExtractInRowOrder |
| CrossoverSim.SignalRows | simulate_trading.py:90 | the signalled rows, as increasing indices, containing every row whose signal is not empty |
| CrossoverSim.ExtractSound | simulate_trading.py:90 | every extracted signal is some row's signal at that row's close |
| CrossoverSim.ExtractComplete | simulate_trading.py:90 | every row with a signal contributes it |
| CrossoverSim.ExtractPriced | simulate_trading.py:90 | signals from priced rows have positive closes |
| CrossoverSim.ExtractInRowOrder | simulate_trading.py:90 | the filter keeps exactly the signalled rows, in row order: its j-th signal is the j-th signalled row's side and close |
| CrossoverSim.Dedup | simulate_trading.py:93-94 | de-duplication keeps the first signal and the last side, is empty iff the input is, and keeps only input signals; which ones, by CrossoverSim.DedupKeepsRunStarts |
| CrossoverSim.RunStarts | simulate_trading.py:93-94 | the positions where a run of equal sides starts, each a position of the list; exactly which, by CrossoverSim.RunStartsExact |
| CrossoverSim.RunStartsExact | simulate_trading.py:93-94 | the listed positions are run starts (position 0, or a side differing from the previous one), increasing, and include every run start |
| CrossoverSim.DedupNoRepeats | simulate_trading.py:93-94 | no two neighbouring kept signals are equal |
| CrossoverSim.DedupKeepsNoRepeats | simulate_trading.py:93-94 | a list without repeats is unchanged |
| CrossoverSim.DedupIdempotent | simulate_trading.py:93-94 | de-duplicating twice is de-duplicating once |
| CrossoverSim.DedupSnoc | simulate_trading.py:93-94 | one more signal is kept iff its side differs from the signal before it |
| CrossoverSim.DedupKeepsRunStarts | simulate_trading.py:93-94 | de-duplication keeps exactly the first signal of every run of equal sides, in order, with its own close |
| CrossoverSim.PairedSnoc | simulate_trading.py:93-94 | kept signals paired with their positions stay paired when the next kept signal and its position are appended |
| CrossoverSim.FirstOfRunKept | simulate_trading.py:93-94 | of BUY@1, SELL@2, SELL@3 the kept signals are BUY@1 and SELL@2 |
| CrossoverSim.NoRepeatsAlternate | simulate_trading.py:93-94 | kept signals alternate from the first |
| CrossoverSim.Returns | simulate_trading.py:98 | one return per kept signal, missing exactly for the last; its value by CrossoverSim.ReturnGrowth |
| CrossoverSim.ReturnGrowth | simulate_trading.py:98 | one plus a kept signal's return, times its close, is the next kept signal's close |
| CrossoverSim.GainAsWritten | simulate_trading.py:101-106 | the loop's total is a number iff no return is missing; then it is the corrected total (CrossoverSim.GainAgrees), whose value CrossoverSim.GainOne and CrossoverSim.GainAppend fix |
| CrossoverSim.GainOne | simulate_trading.py:103-106 | one signal adds its return after a BUY, subtracts it after a SELL, and adds nothing for a missing return |
| CrossoverSim.GainAppend | simulate_trading.py:101-106 | the corrected totals of consecutive signals add up |
| CrossoverSim.GainAgrees | simulate_trading.py:101-106 | where the written total is a number it equals the corrected total |
| CrossoverSim.GainDropsLast | simulate_trading.py:98-106 | the corrected total ignores the missing last return |
| CrossoverSim.GainIsPairGain | simulate_trading.py:98-106 | the returns and the corrected total give Σ ±(next close / close − 1) over consecutive kept signals, + after a BUY and − after a SELL |
| CrossoverSim.Sides | simulate_trading.py:103-106 | the sides of the kept signals, in order |
| CrossoverSim.AsWrittenDefinedIffNoSignal | simulate_trading.py:98-106 | the written total is a number exactly when no signal is kept |
| CrossoverSim.Simulate | simulate_trading.py:74-106 | the kept signals have no repeats and positive closes; the written total is defined iff there are none, and then equals the corrected one; the corrected total is Σ ±(next close / close − 1) over consecutive kept signals |
| CrossoverSim.CrossingRowsSignal | simulate_trading.py:74-79 | two rows crossing upward with RSI 50 give one BUY at the second close |
| CrossoverSim.GainAsWrittenIsMissing | simulate_trading.py:101-106 | on those rows the written total is missing while the corrected one is 0 |
| Strategies.FindDate | procesar_estrategias.py:22 | the leftmost match of the date pattern with word boundaries, or none at all |
| Strategies.Fecha | procesar_estrategias.py:21-26 | the first date written in the line, or "sin_fecha" iff there is none |
| Strategies.Tipo | procesar_estrategias.py:28-39 | each type iff its keyword family is the first one present in the lower-cased line |
| Strategies.TipoIgnoresCase | procesar_estrategias.py:30-39 | the type does not depend on case |
| Strategies.Entries | procesar_estrategias.py:15-18 | the kept entries are non-empty and stripped |
| Strategies.EntriesAppend | procesar_estrategias.py:15-18 | the entries of two parts of the file concatenate |
| Strategies.RecordOf | procesar_estrategias.py:41 | a record stores the stripped line as its strategy text |
| Strategies.MapRecords | procesar_estrategias.py:15-41 | one record per entry, in order |
| Strategies.MapRecordsAppend | procesar_estrategias.py:15-41 | mapping distributes over concatenation |
| Strategies.Process | procesar_estrategias.py:11-41 | one record per non-blank line, holding that line stripped |
| Strategies.ProcessAppend | procesar_estrategias.py:15-41 | the records of two parts of the file concatenate |
| Strategies.ProcessOne | procesar_estrategias.py:16-18 | a line gives a record iff it is not blank, and the record is of the stripped line |
| VideoFilter.ParseLine | youtube_scraper/filtrar_videos_valiosos.py:7 | a line unpacks iff it splits into two parts, and then it is id, " \| ", title, with the id cut at the leftmost separator and no separator in the title, which by Text.SplitUnique fixes the pair |
| VideoFilter.OverlappingSeparator | youtube_scraper/filtrar_videos_valiosos.py:7 | "x \| \| y" unpacks into id "x" and title "\| y": the split cuts at the first separator |
| VideoFilter.WholeWordsOnly | youtube_scraper/filtrar_videos_valiosos.py:19 | "estrategias" does not match the keyword "estrategia"; "mi estrategia" does |
| VideoFilter.Filter | youtube_scraper/filtrar_videos_valiosos.py:17-20 | never more ids than videos; which ids, by VideoFilter.FilterKeepsRelevant |
| VideoFilter.FilterByKeeps | youtube_scraper/filtrar_videos_valiosos.py:17-20 | every kept id belongs to an accepted video, and every accepted video's id is kept |
| VideoFilter.FilterKeepsRelevant | youtube_scraper/filtrar_videos_valiosos.py:17-20 | the same for the keyword relevance test |
| VideoFilter.FilterByAppend | youtube_scraper/filtrar_videos_valiosos.py:17-20 | filtering distributes over concatenation |
| VideoFilter.FilterAppend | youtube_scraper/filtrar_videos_valiosos.py:17-20 | the comprehension keeps order across parts of the list |
| VideoFilter.FilterOne | youtube_scraper/filtrar_videos_valiosos.py:17-20 | one video's id is kept iff it is relevant |
| VideoFilter.ParseAllBy | youtube_scraper/filtrar_videos_valiosos.py:7 | all lines parse iff each does, giving one video per line in order |
| VideoFilter.ParseAll | youtube_scraper/filtrar_videos_valiosos.py:7 | the same with the script's line format |
| VideoFilter.FileTextIsJoin | youtube_scraper/filtrar_videos_valiosos.py:23-25 | the output file is the ids joined by newlines, plus a final newline |
| VideoFilter.ReadBack | youtube_scraper/filtrar_videos_valiosos.py:23-27 | reading the file back line by line gives the kept ids again |
| VideoFilter.Run | youtube_scraper/filtrar_videos_valiosos.py:6-27 | the run fails iff some line cannot be unpacked; otherwise it writes the kept ids and prints their count |
| ProjectExport.AllFiles | export_project.py:47 | every listed file lies below the directory it was listed from |
| ProjectExport.KeepUnignored | export_project.py:48 | every kept file has no ignored folder on its path |
| ProjectExport.KeepByAppend | export_project.py:47-48 | keeping distributes over concatenation |
| ProjectExport.KeepNoneBelow | export_project.py:48 | nothing below an ignored folder is kept |
| ProjectExport.KeepAllHere | export_project.py:50 | files directly in an unignored directory are all kept |
| ProjectExport.WalkIsPrunedListing | export_project.py:47-48 | the pruned walk lists exactly the files with no ignored folder on their path, in walk order |
| ProjectExport.Slashes | export_project.py:52 | backslashes become slashes and nothing else changes |
| ProjectExport.PathOf | export_project.py:52 | the written path contains no backslash |
| ProjectExport.Judge | export_project.py:51-63 | a file is skipped for its extension, counted as too large above 1 MiB, dropped when unreadable, or exported with exactly the first min(length, 49999) characters of its content |
| ProjectExport.SizeLimitInclusive | export_project.py:55 | a file of exactly 1 MiB is exported; one byte more is not |
| ProjectExport.RowsAreJudgedBy | export_project.py:50-61 | every row comes from one of the listed files |
| ProjectExport.CollectByAppend | export_project.py:47-63 | rows and skip counts of two parts of the listing concatenate and add |
| ProjectExport.Collect | export_project.py:44-63 | rows plus skipped files never exceed the files listed |
| ProjectExport.RowsAreJudged | export_project.py:50-61 | every row is an exported, small enough, readable listed file |
| ProjectExport.CollectAppend | export_project.py:47-63 | the loop accumulates: parts give concatenated rows and added counts |
| ProjectExport.CollectOne | export_project.py:50-63 | one file gives a row, a skip or nothing, as it is judged |
| ProjectExport.ExportSkipsIgnored | export_project.py:47-63 | the export equals the export of the unignored part of the full listing |
| Notifier.FormatBuyMessage | scripts/notifier.py:38-45 | the buy message starts with its title and the symbol in back-ticks and ends with the take-profit in back-ticks |
| Notifier.BuyMessageFields | scripts/notifier.py:38-45 | split on back-ticks, the message gives back the symbol, entry, stop-loss and take-profit |
| Notifier.SellEmoji | scripts/notifier.py:48 | 🎉 iff the reason is Take-Profit, 🔥 otherwise |
| Notifier.PnlLabel | scripts/notifier.py:50 | "Ganancia" iff the P&L is at least 0, "Pérdida" iff negative |
| Notifier.FormatSellMessage | scripts/notifier.py:47-57 | the sell message starts with its emoji-framed title and ends with the P&L in back-ticks |
| Notifier.SellMessageFields | scripts/notifier.py:47-57 | split on back-ticks, the message gives back the symbol, the italic reason, the exit price, the P&L label and the P&L |

## Left out

- I/O and services are not modelled. Their results are parameters instead. This covers:
  - files, the lock file and the JSON portfolio file;
  - the network: Binance, Yahoo Finance, X, NewsAPI, alternative.me, Telegram, Google Sheets;
  - logging and `print`;
  - plotting and CSV output;
  - `asyncio`;
  - the clock (integer seconds).
- Training, the scikit-learn model and the technical indicators (SMA, RSI and the rest) are not modelled. Their values are inputs.
- The performance analyzer's regular-expression parsing of log lines is not modelled. The replay starts from the parsed events. The log's rounding of the P&L to cents is not modelled either, so the replay works on exact values.
- Floating point is left out. Money and prices are exact reals, so `Decimal`/`float` rounding and the money formatting `{x:,.2f}` are not modelled. The notifier takes number rendering as a function parameter.
- `str.lower()`, `\w`/`\b` and `\d` are modelled only for ASCII and Latin-1. Python applies them to all of Unicode. `str.isspace()` is modelled for the code points Python lists as whitespace.
- Text is a sequence of characters. UTF-8 decoding, including the exporter's `errors="ignore"`, is not modelled, and file contents are given as strings.
- Scheduler.Cycle requires a positive last close. `latest_price` at scheduler.py:105 is a numpy float, so a zero close turns the division at line 112 into an infinite bitcoin amount, with a runtime warning, rather than an exception. Market prices are positive, and infinite amounts are not modelled.
- Backtest.Run requires positive closes. A zero close on a buy raises `ZeroDivisionError` at backtest.py:50, where both operands are Python floats, and nothing catches it. Market prices are positive.
- CrossoverSim.Simulate requires positive closes. A zero close makes the pandas division at simulate_trading.py:98 give an infinite return rather than raise. Market prices are positive, and infinite returns are not modelled.
- The Twitter client construction is a boolean parameter, and so is the News API key check.
- The exporter's authentication, sheet clearing and header row are not modelled. Nor are the upload and the outer `try/except`. The rows are the result.
- The mean-return log line of the crossover simulation is not modelled. The model covers the total.
- Performance: the date columns and the equity chart are not modelled.
- The prediction script's probabilities printout is not modelled.

## Findings

| source | as written | input that shows it | evidently intended | confidence | as-written member | corrected member |
|---|---|---|---|---|---|---|
| simulate_trading.py:98-106 | The last kept signal's `Return` is NaN, because `shift(-1)` has no next row. The loop adds it to `ganancia_total`, so the total is NaN whenever at least one signal is kept. | Two rows whose 20-day average crosses above the 50-day one on the second row, with RSI 50. This gives one BUY signal. The total is NaN, while the corrected total is 0. | The signed sum over the returns that exist. That is how pandas' `mean()` on line 109 treats the same column. | not executed | CrossoverSim.GainAsWritten (shown by CrossoverSim.GainAsWrittenIsMissing) | CrossoverSim.Gain (CrossoverSim.GainAgrees, CrossoverSim.GainDropsLast, CrossoverSim.GainIsPairGain) |
