/** Sentiment of downloaded YouTube transcripts: every `.txt` file is split
    on '.', each phrase longer than ten characters once stripped is scored
    by keywords, and the total is mapped to a signal with strict ±2
    thresholds. */
module YoutubeSentiment {
  import opened Wrappers
  import opened Text
  import opened Signals

  const Positive: seq<string> := [
    "subirá", "bullish", "compra", "comprar", "oportunidad", "soporte", "alza",
    "optimista", "rally", "despegue", "aumento", "ganancia", "potencial", "fuerte",
    "crecimiento", "récord", "máximo", "recuperación", "invertir", "acumular"
  ]
  const Negative: seq<string> := [
    "bajará", "bearish", "venta", "vender", "riesgo", "resistencia", "caída",
    "pesimista", "corrección", "burbuja", "pérdida", "peligro", "débil",
    "disminución", "desplome", "pánico", "cuidado", "sobrecomprado"
  ]

  /** `analizar_sentimiento_frase`: positive keywords present in the
      lower-cased phrase minus negative keywords present. */
  function PhraseScore(phrase: string): (r: int)
    ensures -18 <= r <= 20
  {
    assert |Positive| == 20 && |Negative| == 18;
    KeywordScore(Positive, Negative, phrase)
  }

  /** A phrase scores the number of positive keywords it contains minus the
      number of negative ones. */
  lemma PhraseScoreCountsPresent(phrase: string)
    ensures PhraseScore(phrase)
            == |Present(Positive, Lower(phrase))| - |Present(Negative, Lower(phrase))|
  {
    KeywordScoreCountsPresent(Positive, Negative, phrase);
  }

  /** A phrase is scored only when it is longer than ten characters once stripped. */
  predicate Counted(phrase: string) {
    |Strip(phrase)| > 10
  }

  /** Running totals: the summed score and the number of phrases scored. */
  datatype Tally = Tally(total: int, phrases: nat)

  function Plus(a: Tally, b: Tally): Tally {
    Tally(a.total + b.total, a.phrases + b.phrases)
  }

  lemma PlusAssociative(x: Tally, y: Tally, z: Tally)
    ensures Plus(x, Plus(y, z)) == Plus(Plus(x, y), z)
  {
  }

  /** Score of a list of phrases. */
  function TallyPhrases(phrases: seq<string>): (t: Tally)
    ensures t.phrases <= |phrases|
    ensures -18 * t.phrases <= t.total <= 20 * t.phrases
    ensures t.phrases == 0 ==> t.total == 0
  {
    if |phrases| == 0 then Tally(0, 0)
    else
      var rest := TallyPhrases(phrases[1..]);
      if Counted(phrases[0]) then Tally(PhraseScore(phrases[0]) + rest.total, rest.phrases + 1)
      else rest
  }

  /** One phrase is scored iff it is counted... */
  lemma TallyPhrasesOne(p: string)
    ensures TallyPhrases([p]) == if Counted(p) then Tally(PhraseScore(p), 1) else Tally(0, 0)
  {
    assert [p][1..] == [];
  }

  /** ...and the tallies of consecutive phrases add up. */
  lemma {:induction false} TallyPhrasesAppend(a: seq<string>, b: seq<string>)
    ensures TallyPhrases(a + b) == Plus(TallyPhrases(a), TallyPhrases(b))
    decreases |a|
  {
    if |a| == 0 {
      assert a + b == b;
    } else {
      assert (a + b)[0] == a[0] && (a + b)[1..] == a[1..] + b;
      TallyPhrasesAppend(a[1..], b);
    }
  }

  /** Score of one transcript's text. */
  function TallyText(text: string): Tally {
    TallyPhrases(Split(text, "."))
  }

  /** A directory entry: its name and its text, `None` when reading it raises. */
  datatype Entry = Entry(name: string, content: Option<string>)

  predicate IsTranscript(e: Entry) {
    EndsWith(e.name, ".txt")
  }

  /** What one directory entry adds: its text's tally when it is a
      transcript that could be read, nothing otherwise. */
  function EntryTally(e: Entry): Tally {
    if IsTranscript(e) && e.content.Some? then TallyText(e.content.value) else Tally(0, 0)
  }

  /** Totals over the entries of the directory. */
  function TallyEntries(entries: seq<Entry>): (t: Tally)
    ensures t.phrases == 0 ==> t.total == 0
  {
    if |entries| == 0 then Tally(0, 0)
    else Plus(EntryTally(entries[0]), TallyEntries(entries[1..]))
  }

  /** One entry adds its text's tally iff it is a readable transcript... */
  lemma TallyEntriesOne(e: Entry)
    ensures TallyEntries([e])
            == if IsTranscript(e) && e.content.Some? then TallyText(e.content.value) else Tally(0, 0)
  {
    assert [e][1..] == [];
  }

  /** ...and the tallies of consecutive parts of the listing add up. */
  lemma {:induction false} TallyEntriesAppend(a: seq<Entry>, b: seq<Entry>)
    ensures TallyEntries(a + b) == Plus(TallyEntries(a), TallyEntries(b))
    decreases |a|
  {
    if |a| == 0 {
      assert a + b == b;
    } else {
      assert (a + b)[0] == a[0] && (a + b)[1..] == a[1..] + b;
      TallyEntriesAppend(a[1..], b);
      PlusAssociative(EntryTally(a[0]), TallyEntries(a[1..]), TallyEntries(b));
    }
  }

  /** Only `.txt` files: the transcripts of the listing, in order. */
  function Transcripts(entries: seq<Entry>): (r: seq<Entry>)
    ensures forall k :: 0 <= k < |r| ==> IsTranscript(r[k]) && r[k] in entries
  {
    if |entries| == 0 then []
    else if IsTranscript(entries[0]) then [entries[0]] + Transcripts(entries[1..])
    else Transcripts(entries[1..])
  }

  /** A single entry is kept iff it is a transcript... */
  lemma TranscriptsOne(e: Entry)
    ensures Transcripts([e]) == if IsTranscript(e) then [e] else []
  {
  }

  /** ...and order is kept: consecutive parts of the listing concatenate. */
  lemma {:induction false} TranscriptsAppend(a: seq<Entry>, b: seq<Entry>)
    ensures Transcripts(a + b) == Transcripts(a) + Transcripts(b)
    decreases |a|
  {
    if |a| > 0 {
      assert (a + b)[0] == a[0] && (a + b)[1..] == a[1..] + b;
      TranscriptsAppend(a[1..], b);
    } else {
      assert a + b == b;
    }
  }

  /** Files that do not end in ".txt" contribute nothing. */
  lemma {:induction false} OnlyTranscriptsCount(entries: seq<Entry>)
    ensures TallyEntries(entries) == TallyEntries(Transcripts(entries))
  {
    if |entries| > 0 {
      OnlyTranscriptsCount(entries[1..]);
      if IsTranscript(entries[0]) {
        var r := [entries[0]] + Transcripts(entries[1..]);
        assert r[0] == entries[0] && r[1..] == Transcripts(entries[1..]);
      }
    }
  }

  /** `get_youtube_sentiment`; `listing` is `None` when the directory does not exist. */
  function GetYoutubeSentiment(listing: Option<seq<Entry>>): (s: int)
    ensures IsSignal(s)
    ensures listing.None? || listing.value == [] ==> s == 0
    ensures listing.Some? ==>
              var t := TallyEntries(listing.value);
              (s == 1 <==> t.total > 2) && (s == -1 <==> t.total < -2)
  {
    match listing
    case None => 0
    case Some(entries) =>
      if entries == [] then 0
      else
        var t := TallyEntries(entries);
        if t.phrases == 0 then 0 else Strict(t.total as real, 2.0)
  }
}
