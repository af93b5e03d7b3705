/** The news sentiment analyzer: keyword scoring of article titles and a ±2
    threshold. Every failure (no API key, an API error, a title that is
    `None`) ends in the neutral signal. */
module News {
  import opened Wrappers
  import opened Text
  import opened Signals

  const Positive: seq<string> := [
    "aprueba", "adopción", "invierte", "optimista", "impulso", "récord", "aumenta", "soporte",
    "innovación", "regulación positiva", "halving", "institucional", "lanzamiento", "alianza"
  ]
  const Negative: seq<string> := [
    "prohíbe", "fraude", "riesgo", "cae", "investigación", "demanda", "hackeo", "volatilidad",
    "burbuja", "regulación estricta", "prohibición", "estafa", "colapso", "pérdidas"
  ]

  /** The `title` entry of an article as the API returns it. */
  datatype Title = Absent | Null | Text(text: string)

  datatype Article = Article(title: Title)

  /** `articulo.get('title', '')`; `None` when the title is JSON `null`,
      on which `.lower()` raises. */
  function TitleText(a: Article): Option<string> {
    match a.title
    case Absent => Some("")
    case Null => None
    case Text(t) => Some(t)
  }

  /** One article's contribution: 0 for an empty title, otherwise +1 per
      positive and -1 per negative keyword present; `None` when it raises. */
  function ArticleScore(a: Article): (r: Option<int>)
    ensures r.None? <==> a.title.Null?
    ensures r.Some? ==> -|Negative| <= r.value <= |Positive|
    ensures r.Some? ==> r.value == if a.title.Text? then KeywordScore(Positive, Negative, a.title.text) else 0
  {
    match TitleText(a)
    case None => None
    case Some(t) =>
      if Lower(t) == "" then
        EmptyTitleScoresZero(t);
        Some(0)
      else Some(KeywordScore(Positive, Negative, t))
  }

  /** The empty-title shortcut agrees with the keyword score: no keyword is
      empty, so an empty title contains none of them. */
  lemma EmptyTitleScoresZero(t: string)
    requires Lower(t) == ""
    ensures KeywordScore(Positive, Negative, t) == 0
  {
    forall k | 0 <= k < |Positive| ensures !Contains(Lower(t), Positive[k]) {
      assert |Positive[k]| > 0;
    }
    forall k | 0 <= k < |Negative| ensures !Contains(Lower(t), Negative[k]) {
      assert |Negative[k]| > 0;
    }
    KeywordScoreNoHits(Positive, Negative, t);
  }

  /** The sum of the scores `score` gives the articles; `None` as soon as
      one article's score is `None`. */
  function SumScores(articles: seq<Article>, score: Article -> Option<int>): (r: Option<int>)
    ensures r.None? <==> exists k :: 0 <= k < |articles| && score(articles[k]).None?
    ensures (forall a :: score(a).Some? ==> -14 <= score(a).value <= 14) ==>
              r.Some? ==> -14 * |articles| <= r.value <= 14 * |articles|
  {
    if |articles| == 0 then Some(0)
    else
      var here := score(articles[0]);
      var rest := SumScores(articles[1..], score);
      assert forall k :: 1 <= k < |articles| ==> articles[1..][k - 1] == articles[k];
      if here.None? || rest.None? then None else Some(here.value + rest.value)
  }

  /** One article's sum is its score... */
  lemma SumScoresOne(a: Article, score: Article -> Option<int>)
    ensures SumScores([a], score) == score(a)
  {
    assert [a][1..] == [];
  }

  /** ...and the sums of consecutive batches add, failing when either fails. */
  lemma {:induction false} SumScoresAppend(a: seq<Article>, b: seq<Article>, score: Article -> Option<int>)
    ensures SumScores(a + b, score)
            == if SumScores(a, score).Some? && SumScores(b, score).Some?
               then Some(SumScores(a, score).value + SumScores(b, score).value)
               else None
    decreases |a|
  {
    if |a| == 0 {
      assert a + b == b;
    } else {
      assert (a + b)[0] == a[0] && (a + b)[1..] == a[1..] + b;
      SumScoresAppend(a[1..], b, score);
    }
  }

  /** An article scoring 0 can be dropped without changing the sum. */
  lemma {:induction false} ZeroScoreIgnored(articles: seq<Article>, k: nat, score: Article -> Option<int>)
    requires k < |articles| && score(articles[k]) == Some(0)
    ensures SumScores(articles, score) == SumScores(articles[..k] + articles[k + 1..], score)
  {
    if k == 0 {
      assert articles[..0] + articles[1..] == articles[1..];
    } else {
      var shorter := articles[..k] + articles[k + 1..];
      assert shorter[0] == articles[0];
      assert shorter[1..] == articles[1..][..k - 1] + articles[1..][k..];
      ZeroScoreIgnored(articles[1..], k - 1, score);
    }
  }

  /** `analizar_sentimiento_noticias`: the sum of the article scores; `None`
      when a title raises. */
  function NewsScore(articles: seq<Article>): (r: Option<int>)
    ensures r.None? <==> exists k :: 0 <= k < |articles| && articles[k].title.Null?
    ensures r.Some? ==> -14 * |articles| <= r.value <= 14 * |articles|
  {
    assert |Positive| == 14 && |Negative| == 14;
    SumScores(articles, ArticleScore)
  }

  /** The news score of one article is that article's score; with
      `SumScoresAppend` the scores of consecutive batches add up. */
  lemma NewsScoreOne(a: Article)
    ensures NewsScore([a]) == ArticleScore(a)
  {
    SumScoresOne(a, ArticleScore);
  }

  /** Articles with an empty or missing title change nothing. */
  lemma UntitledArticlesIgnored(articles: seq<Article>, k: nat)
    requires k < |articles| && (articles[k].title.Absent? || articles[k].title == Text(""))
    ensures NewsScore(articles) == NewsScore(articles[..k] + articles[k + 1..])
  {
    assert ArticleScore(articles[k]) == Some(0);
    ZeroScoreIgnored(articles, k, ArticleScore);
  }

  /** The answer of NewsAPI's `get_everything`. */
  datatype Response =
    | ApiFailed                                // the client or the request raised
    | Answer(articles: Option<seq<Article>>)   // `None`: no 'articles' key

  /** `get_news_sentiment`. */
  function GetNewsSentiment(apiKeySet: bool, response: Response): (s: int)
    ensures IsSignal(s)
    ensures !apiKeySet || response.ApiFailed? ==> s == 0
    ensures response.Answer? && (response.articles.None? || response.articles.value == []) ==> s == 0
    ensures s != 0 ==> apiKeySet && response.Answer? && response.articles.Some?
                       && NewsScore(response.articles.value).Some?
    ensures s == 1 <==> apiKeySet && response.Answer? && response.articles.Some?
                        && NewsScore(response.articles.value).Some?
                        && NewsScore(response.articles.value).value >= 2
    ensures s == -1 <==> apiKeySet && response.Answer? && response.articles.Some?
                         && NewsScore(response.articles.value).Some?
                         && NewsScore(response.articles.value).value <= -2
  {
    if !apiKeySet then 0
    else
      match response
      case ApiFailed => 0
      case Answer(found) =>
        var articles := found.GetOr([]);
        if articles == [] then 0
        else
          match NewsScore(articles)
          case None => 0
          case Some(total) => Inclusive(total as real, 2.0)
  }
}
