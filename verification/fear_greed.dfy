/** The Fear & Greed index analyzer: the first entry of the API's answer is
    mapped to a signal (above 65 bullish, below 25 bearish), and the raw
    answer is cached for ten minutes. Time is in seconds. */
module FearGreed {
  import opened Wrappers
  import opened Signals

  /** Ten minutes, in seconds. */
  const CacheDuration: int := 10 * 60

  /** One entry of the `data` list. `value` is `None` when the entry has no
      'value' or `int()` cannot parse it; `classified` says whether the entry
      carries a 'value_classification'. Either defect raises. */
  datatype Entry = Entry(value: Option<int>, classified: bool)

  /** The 'data' member of the body: absent, JSON `null`, or a list. */
  datatype Data = Missing | Null | Entries(entries: seq<Entry>)

  /** The decoded JSON body: `null` (or an empty object), or an object. */
  datatype Payload = NullPayload | Body(data: Data)

  datatype Cache = Cache(data: Payload, timestamp: Option<int>)

  const InitialCache: Cache := Cache(NullPayload, None)

  /** The request: a decoded body, or a `RequestException`. */
  datatype Fetch = Received(payload: Payload) | RequestFailed

  /** The call returns a signal, or raises to its caller. */
  datatype Outcome = Returned(signal: int) | Raised

  /** Index value to signal: > 65 greed (1), < 25 extreme fear (-1), else 0. */
  function IndexSignal(value: int): (s: int)
    ensures IsSignal(s)
    ensures s == 1 <==> value > 65
    ensures s == -1 <==> value < 25
    ensures s == 0 <==> 25 <= value <= 65
  {
    if value > 65 then 1 else if value < 25 then -1 else 0
  }

  /** A higher index never gives a more bearish signal. */
  lemma IndexSignalMonotone(a: int, b: int)
    requires a <= b
    ensures IndexSignal(a) <= IndexSignal(b)
  {
  }

  /** An entry both of whose fields can be read. */
  predicate Readable(e: Entry) {
    e.value.Some? && e.classified
  }

  /** Reading a payload: only the first entry matters. A payload without
      entries is neutral; a `null` list (`len(None)`) and an unreadable first
      entry (a failed `int()` or a missing key) raise. */
  function Interpret(p: Payload): (r: Outcome)
    ensures r.Raised? <==>
              p.Body? && (p.data.Null? || (p.data.Entries? && |p.data.entries| > 0 && !Readable(p.data.entries[0])))
    ensures p.NullPayload? || p.data.Missing? || p.data == Entries([]) ==> r == Returned(0)
    ensures p.Body? && p.data.Entries? && |p.data.entries| > 0 && Readable(p.data.entries[0]) ==>
              r == Returned(IndexSignal(p.data.entries[0].value.value))
  {
    match p
    case NullPayload => Returned(0)
    case Body(data) =>
      match data
      case Missing => Returned(0)
      case Null => Raised
      case Entries(entries) =>
        if |entries| == 0 then Returned(0)
        else if !Readable(entries[0]) then Raised
        else Returned(IndexSignal(entries[0].value.value))
  }

  /** Entries after the first never change the outcome. */
  lemma OnlyFirstEntryMatters(first: Entry, rest1: seq<Entry>, rest2: seq<Entry>)
    ensures Interpret(Body(Entries([first] + rest1))) == Interpret(Body(Entries([first] + rest2)))
  {
  }

  /** The cached answer is used iff one was stored less than ten minutes ago. */
  predicate Fresh(c: Cache, now: int) {
    c.timestamp.Some? && now - c.timestamp.value < CacheDuration
  }

  /** `get_fear_and_greed_index`: the outcome and the cache afterwards.
      `fetch` is what the request would give; it is made only when the
      cache is stale. */
  function GetFearAndGreedIndex(cache: Cache, fetch: Fetch, now: int): (r: (Outcome, Cache))
    ensures Fresh(cache, now) ==> r == (Interpret(cache.data), cache)
    ensures !Fresh(cache, now) && fetch.RequestFailed? ==> r == (Returned(0), cache)
    ensures !Fresh(cache, now) && fetch.Received? ==>
              r == (Interpret(fetch.payload), Cache(fetch.payload, Some(now)))
    ensures r.0.Returned? ==> IsSignal(r.0.signal)
  {
    if Fresh(cache, now) then (Interpret(cache.data), cache)
    else
      match fetch
      case RequestFailed => (Returned(0), cache)
      case Received(p) => (Interpret(p), Cache(p, Some(now)))
  }

  /** A second call within ten minutes of a successful fetch reuses the
      stored answer: same outcome, no new request, cache unchanged. */
  lemma SecondCallUsesCache(cache: Cache, fetch1: Fetch, fetch2: Fetch, t1: int, t2: int)
    requires !Fresh(cache, t1) && fetch1.Received?
    requires t1 <= t2 < t1 + CacheDuration
    ensures var (o1, c1) := GetFearAndGreedIndex(cache, fetch1, t1);
            GetFearAndGreedIndex(c1, fetch2, t2) == (o1, c1)
  {
  }
}
