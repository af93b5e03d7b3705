/** Three-valued sentiment signals (1 bullish, 0 neutral, -1 bearish), the
    two threshold shapes the analyzers use to produce them, and keyword
    scoring shared by the X, news and YouTube analyzers. */
module Signals {
  import opened Text

  predicate IsSignal(x: int) {
    -1 <= x <= 1
  }

  /** `1 if total >= t else -1 if total <= -t else 0`. */
  function Inclusive(total: real, t: real): (s: int)
    requires t > 0.0
    ensures IsSignal(s)
    ensures s == 1 <==> total >= t
    ensures s == -1 <==> total <= -t
  {
    if total >= t then 1 else if total <= -t then -1 else 0
  }

  /** `1 if total > t else -1 if total < -t else 0`. */
  function Strict(total: real, t: real): (s: int)
    requires t >= 0.0
    ensures IsSignal(s)
    ensures s == 1 <==> total > t
    ensures s == -1 <==> total < -t
  {
    if total > t then 1 else if total < -t then -1 else 0
  }

  /** A larger total never gives a more bearish signal. */
  lemma InclusiveMonotone(x: real, y: real, t: real)
    requires t > 0.0 && x <= y
    ensures Inclusive(x, t) <= Inclusive(y, t)
  {
  }

  /** Negating the total negates the signal. */
  lemma InclusiveOdd(x: real, t: real)
    requires t > 0.0
    ensures Inclusive(-x, t) == -Inclusive(x, t)
  {
  }

  lemma StrictMonotone(x: real, y: real, t: real)
    requires t >= 0.0 && x <= y
    ensures Strict(x, t) <= Strict(y, t)
  {
  }

  lemma StrictOdd(x: real, t: real)
    requires t >= 0.0
    ensures Strict(-x, t) == -Strict(x, t)
  {
  }

  // ---------------------------------------------------------------------------
  // Keyword scoring
  // ---------------------------------------------------------------------------

  /** How many of `words` occur in `text` as substrings; a keyword that
      occurs several times still counts once. */
  function Hits(words: seq<string>, text: string): (n: nat)
    ensures n <= |words|
    ensures n == 0 <==> forall k :: 0 <= k < |words| ==> !Contains(text, words[k])
    ensures n == |words| <==> forall k :: 0 <= k < |words| ==> Contains(text, words[k])
  {
    if |words| == 0 then 0
    else (if Contains(text, words[0]) then 1 else 0) + Hits(words[1..], text)
  }

  /** Splitting the keyword list splits the count. */
  lemma {:induction false} HitsAppend(a: seq<string>, b: seq<string>, text: string)
    ensures Hits(a + b, text) == Hits(a, text) + Hits(b, text)
  {
    if |a| > 0 {
      assert (a + b)[1..] == a[1..] + b;
      HitsAppend(a[1..], b, text);
    } else {
      assert a + b == b;
    }
  }

  /** The positions in `words` of the keywords that occur in `text`. */
  function Present(words: seq<string>, text: string): set<int> {
    set k | 0 <= k < |words| && Contains(text, words[k])
  }

  /** Appending one keyword adds its position when it is present. */
  lemma PresentSnoc(init: seq<string>, w: string, text: string)
    ensures Present(init + [w], text)
            == Present(init, text) + (if Contains(text, w) then {|init|} else {})
  {
    var ws := init + [w];
    assert forall k :: 0 <= k < |init| ==> ws[k] == init[k];
    assert ws[|init|] == w;
  }

  /** `Hits` counts exactly the keywords present. */
  lemma {:induction false} HitsCountsPresent(words: seq<string>, text: string)
    ensures Hits(words, text) == |Present(words, text)|
    decreases |words|
  {
    if |words| == 0 {
      assert Present(words, text) == {};
    } else {
      var n := |words| - 1;
      var init, w := words[..n], words[n];
      assert words == init + [w];
      HitsCountsPresent(init, text);
      HitsAppend(init, [w], text);
      assert [w][1..] == [];
      PresentSnoc(init, w, text);
      assert n !in Present(init, text);
    }
  }

  /** Positive keywords present minus negative keywords present, in the
      lower-cased text. */
  function KeywordScore(pos: seq<string>, neg: seq<string>, text: string): (r: int)
    ensures -|neg| <= r <= |pos|
  {
    var t := Lower(text);
    Hits(pos, t) - Hits(neg, t)
  }

  /** The score is the number of positive keywords present minus the number
      of negative keywords present. */
  lemma KeywordScoreCountsPresent(pos: seq<string>, neg: seq<string>, text: string)
    ensures KeywordScore(pos, neg, text)
            == |Present(pos, Lower(text))| - |Present(neg, Lower(text))|
  {
    HitsCountsPresent(pos, Lower(text));
    HitsCountsPresent(neg, Lower(text));
  }

  /** A single keyword scores one when it occurs in the lower-cased text,
      on the positive side, and minus one on the negative side. */
  lemma KeywordScoreOne(w: string, text: string)
    ensures KeywordScore([w], [], text) == (if Contains(Lower(text), w) then 1 else 0)
    ensures KeywordScore([], [w], text) == (if Contains(Lower(text), w) then -1 else 0)
  {
    assert [w][1..] == [];
  }

  /** Splitting both keyword lists splits the score, so the score is the sum
      of the one-keyword scores above. */
  lemma KeywordScoreAppend(p1: seq<string>, p2: seq<string>, n1: seq<string>, n2: seq<string>, text: string)
    ensures KeywordScore(p1 + p2, n1 + n2, text)
            == KeywordScore(p1, n1, text) + KeywordScore(p2, n2, text)
  {
    HitsAppend(p1, p2, Lower(text));
    HitsAppend(n1, n2, Lower(text));
  }

  /** The score ignores the case of the text. */
  lemma KeywordScoreIgnoresCase(pos: seq<string>, neg: seq<string>, text: string)
    ensures KeywordScore(pos, neg, Lower(text)) == KeywordScore(pos, neg, text)
  {
    LowerIdempotent(text);
  }

  /** A text containing none of the keywords scores zero. */
  lemma KeywordScoreNoHits(pos: seq<string>, neg: seq<string>, text: string)
    requires forall k :: 0 <= k < |pos| ==> !Contains(Lower(text), pos[k])
    requires forall k :: 0 <= k < |neg| ==> !Contains(Lower(text), neg[k])
    ensures KeywordScore(pos, neg, text) == 0
  {
  }
}
