/** The valuable-video filter: every line of the video list is "id | title";
    a video is kept when one of the keywords appears as a whole word in its
    lower-cased title, and the kept ids are written one per line. */
module VideoFilter {
  import opened Wrappers
  import opened Text

  const Keywords: seq<string> := [
    "estrategia", "scalping", "day trading", "curso", "gratis", "principiante",
    "guía", "desde cero", "indicador", "trading rentable", "plan de trading",
    "psicotrading", "gestión de riesgo"
  ]

  const Separator: string := " | "

  datatype Video = Video(id: string, title: string)

  /** `line.strip().split(" | ")` unpacked into id and title; `None` when the
      line does not have exactly two parts, where the unpacking raises and
      the whole run stops. The id ends before the leftmost separator and the
      title holds none, which by `Text.SplitUnique` fixes the pair. */
  function ParseLine(line: string): (v: Option<Video>)
    ensures v.Some? <==> |Split(Strip(line), Separator)| == 2
    ensures v.Some? ==> Strip(line) == v.value.id + Separator + v.value.title
    ensures v.Some? ==> !Contains(v.value.id + Separator[..|Separator| - 1], Separator)
    ensures v.Some? ==> !Contains(v.value.title, Separator)
  {
    var parts := Split(Strip(line), Separator);
    if |parts| == 2 then
      SplitJoin(Strip(line), Separator);
      SplitLeftmost(Strip(line), Separator);
      SplitPiecesAvoidSeparator(Strip(line), Separator);
      Some(Video(parts[0], parts[1]))
    else None
  }

  /** The separator " | " overlaps itself: in "x | | y" the split cuts at
      the first occurrence, so the title keeps the second bar. */
  lemma OverlappingSeparator()
    ensures ParseLine("x | | y") == Some(Video("x", "| y"))
  {
    var line := "x | | y";
    StripFixed(line);
    var parts := ["x", "| y"];
    assert Join(parts, Separator) == line;
    var title, head := "| y", "x" + Separator[..|Separator| - 1];
    assert head == "x |";
    assert title[0] != Separator[0] && head[0] != Separator[0];
    assert !OccursAt(title, Separator, 0) && !OccursAt(head, Separator, 0);
    SplitUnique(line, Separator, parts);
  }

  /** `any(re.search(rf"\b{kw}\b", title.lower()) for kw in keywords)`. */
  predicate Relevant(title: string) {
    exists k :: 0 <= k < |Keywords| && ContainsWholeWord(Lower(title), Keywords[k])
  }

  /** A keyword glued to other letters does not count: "estrategias" alone
      is not a match for "estrategia". */
  lemma WholeWordsOnly()
    ensures !ContainsWholeWord("estrategias", "estrategia")
    ensures ContainsWholeWord("mi estrategia", "estrategia")
  {
    var s := "mi estrategia";
    assert WholeWordAt(s, "estrategia", 3) by {
      assert s[3..13] == "estrategia";
    }
    var t := "estrategias";
    forall i ensures !WholeWordAt(t, "estrategia", i) {
      if i == 0 {
        assert !BoundaryAt(t, 10) by { assert IsWordChar(t[9]) && IsWordChar(t[10]); }
      } else if i == 1 {
        assert !OccursAt(t, "estrategia", 1) by { assert t[1..11][0] == 's'; }
      }
    }
  }

  predicate RelevantVideo(v: Video) {
    Relevant(v.title)
  }

  /** `x` is the id of a video of `videos` that `keep` accepts. */
  predicate KeptFrom(videos: seq<Video>, keep: Video -> bool, x: string) {
    exists k :: 0 <= k < |videos| && videos[k].id == x && keep(videos[k])
  }

  /** The ids of the videos `keep` accepts, in order. */
  function FilterBy(videos: seq<Video>, keep: Video -> bool): (ids: seq<string>)
    ensures |ids| <= |videos|
  {
    if |videos| == 0 then []
    else (if keep(videos[0]) then [videos[0].id] else []) + FilterBy(videos[1..], keep)
  }

  /** Every id kept belongs to an accepted video, and every accepted
      video's id is kept. */
  lemma {:induction false} FilterByKeeps(videos: seq<Video>, keep: Video -> bool)
    ensures forall x :: x in FilterBy(videos, keep) ==> KeptFrom(videos, keep, x)
    ensures forall k :: 0 <= k < |videos| && keep(videos[k]) ==> videos[k].id in FilterBy(videos, keep)
  {
    if |videos| > 0 {
      FilterByKeeps(videos[1..], keep);
      var rest := FilterBy(videos[1..], keep);
      forall x | x in rest
        ensures KeptFrom(videos, keep, x)
      {
        var k :| 0 <= k < |videos[1..]| && videos[1..][k].id == x && keep(videos[1..][k]);
        assert videos[k + 1] == videos[1..][k];
      }
      forall k | 1 <= k < |videos| && keep(videos[k])
        ensures videos[k].id in rest
      {
        assert videos[1..][k - 1] == videos[k];
      }
    }
  }

  /** The list comprehension `filtrados`. */
  function Filter(videos: seq<Video>): (ids: seq<string>)
    ensures |ids| <= |videos|
  {
    FilterBy(videos, RelevantVideo)
  }

  /** An id is written only for a relevant video, and every relevant
      video's id is written. */
  lemma FilterKeepsRelevant(videos: seq<Video>)
    ensures forall x :: x in Filter(videos) ==>
              exists k :: 0 <= k < |videos| && videos[k].id == x && Relevant(videos[k].title)
    ensures forall k :: 0 <= k < |videos| && Relevant(videos[k].title) ==> videos[k].id in Filter(videos)
  {
    FilterByKeeps(videos, RelevantVideo);
  }

  /** Filtering distributes over concatenation, so together with the
      one-video case it keeps exactly the relevant ids in their order. */
  lemma {:induction false} FilterByAppend(a: seq<Video>, b: seq<Video>, keep: Video -> bool)
    ensures FilterBy(a + b, keep) == FilterBy(a, keep) + FilterBy(b, keep)
  {
    if |a| == 0 {
      assert a + b == b;
    } else {
      var ab := a + b;
      assert ab[0] == a[0];
      assert ab[1..] == a[1..] + b;
      FilterByAppend(a[1..], b, keep);
      var h := if keep(a[0]) then [a[0].id] else [];
      assert FilterBy(ab, keep) == h + FilterBy(a[1..] + b, keep);
      assert FilterBy(a, keep) == h + FilterBy(a[1..], keep);
    }
  }

  lemma FilterAppend(a: seq<Video>, b: seq<Video>)
    ensures Filter(a + b) == Filter(a) + Filter(b)
  {
    FilterByAppend(a, b, RelevantVideo);
  }

  lemma FilterOne(v: Video)
    ensures Filter([v]) == (if Relevant(v.title) then [v.id] else [])
  {
    assert [v][1..] == [];
  }

  /** Parsing every line with `parse`; `None` as soon as one line fails. */
  function ParseAllBy(lines: seq<string>, parse: string -> Option<Video>): (r: Option<seq<Video>>)
    ensures r.Some? <==> forall k :: 0 <= k < |lines| ==> parse(lines[k]).Some?
    ensures r.Some? ==> |r.value| == |lines|
                        && forall k :: 0 <= k < |lines| ==> r.value[k] == parse(lines[k]).value
  {
    if |lines| == 0 then Some([])
    else
      var rest := ParseAllBy(lines[1..], parse);
      assert forall k :: 1 <= k < |lines| ==> lines[1..][k - 1] == lines[k];
      match parse(lines[0])
      case None => None
      case Some(v) => if rest.None? then None else Some([v] + rest.value)
  }

  /** Parsing every line; `None` as soon as one line is malformed. */
  function ParseAll(lines: seq<string>): (r: Option<seq<Video>>)
    ensures r.Some? <==> forall k :: 0 <= k < |lines| ==> ParseLine(lines[k]).Some?
    ensures r.Some? ==> |r.value| == |lines|
                        && forall k :: 0 <= k < |lines| ==> r.value[k] == ParseLine(lines[k]).value
  {
    ParseAllBy(lines, ParseLine)
  }

  /** The text written to the output file: each id followed by a newline. */
  function FileText(ids: seq<string>): string {
    if |ids| == 0 then "" else ids[0] + "\n" + FileText(ids[1..])
  }

  /** The file is the ids joined by newlines, with a final newline. */
  lemma {:induction false} FileTextIsJoin(ids: seq<string>)
    ensures FileText(ids) == Join(ids + [""], "\n")
  {
    if |ids| > 0 {
      FileTextIsJoin(ids[1..]);
      assert (ids + [""])[1..] == ids[1..] + [""];
      JoinCons(ids[0], ids[1..] + [""], "\n");
      assert ids + [""] == [ids[0]] + (ids[1..] + [""]);
    }
  }

  /** Reading the output file back line by line gives the kept ids again,
      one per line, plus the empty piece after the last newline, so the
      count the script prints is the number of lines written. */
  lemma ReadBack(ids: seq<string>)
    requires forall k :: 0 <= k < |ids| ==> '\n' !in ids[k]
    ensures Split(FileText(ids), "\n") == ids + [""]
  {
    FileTextIsJoin(ids);
    var parts := ids + [""];
    assert forall k :: 0 <= k < |parts| ==> '\n' !in parts[k];
    JoinSplit(parts, '\n');
  }

  /** The run: the ids written and the count printed, or `None` when a
      line cannot be unpacked. */
  function Run(lines: seq<string>): (r: Option<(string, nat)>)
    ensures r.None? <==> exists k :: 0 <= k < |lines| && ParseLine(lines[k]).None?
    ensures r.Some? ==> var ids := Filter(ParseAll(lines).value);
                        r.value == (FileText(ids), |ids|)
  {
    match ParseAll(lines)
    case None => None
    case Some(videos) =>
      var ids := Filter(videos);
      Some((FileText(ids), |ids|))
  }
}
