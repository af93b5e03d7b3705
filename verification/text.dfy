/** The string operations the scripts borrow from Python's `str`: `lower`,
    `in` (substring test), `startswith`/`endswith`, `strip`, `split` and the
    `\b` word boundary of the `re` module. */
module Text {
  import opened Wrappers

  // ---------------------------------------------------------------------------
  // Case mapping
  // ---------------------------------------------------------------------------

  /** Upper-case letters that `str.lower()` maps one-to-one onto a letter 32
      code points higher: ASCII A-Z and the Latin-1 letters À..Þ except ×. */
  predicate IsUpper(c: char) {
    ('A' <= c <= 'Z') || ('À' <= c <= 'Þ' && c != '×')
  }

  function LowerChar(c: char): (r: char)
    ensures IsUpper(c) ==> r as int == c as int + 32
    ensures !IsUpper(c) ==> r == c
    ensures !IsUpper(r)
  {
    if IsUpper(c) then (c as int + 32) as char else c
  }

  /** `s.lower()`, character by character. */
  function Lower(s: string): (r: string)
    ensures |r| == |s|
    ensures forall i :: 0 <= i < |s| ==> r[i] == LowerChar(s[i])
  {
    seq(|s|, i requires 0 <= i < |s| => LowerChar(s[i]))
  }

  /** Lower-casing twice is lower-casing once, so every classifier that
      lower-cases its input is insensitive to the case of that input. */
  lemma LowerIdempotent(s: string)
    ensures Lower(Lower(s)) == Lower(s)
  {
    assert forall i :: 0 <= i < |s| ==> LowerChar(LowerChar(s[i])) == LowerChar(s[i]);
  }

  /** A string without upper-case letters is its own lower-case form. */
  lemma LowerOfLowerCase(s: string)
    requires forall i :: 0 <= i < |s| ==> !IsUpper(s[i])
    ensures Lower(s) == s
  {
  }

  // ---------------------------------------------------------------------------
  // Substrings
  // ---------------------------------------------------------------------------

  /** `pat` occurs in `s` starting at index `i`. */
  predicate OccursAt(s: string, pat: string, i: int) {
    0 <= i && i + |pat| <= |s| && s[i..i + |pat|] == pat
  }

  /** The first index at or after `from` where `pat` occurs (`str.find`). */
  function Find(s: string, pat: string, from: nat): (r: Option<nat>)
    requires from <= |s|
    ensures r.Some? ==> from <= r.value && OccursAt(s, pat, r.value)
    ensures r.Some? ==> forall j :: from <= j < r.value ==> !OccursAt(s, pat, j)
    ensures r.None? ==> forall j :: from <= j ==> !OccursAt(s, pat, j)
    decreases |s| - from
  {
    if from + |pat| > |s| then None
    else if s[from..from + |pat|] == pat then Some(from)
    else Find(s, pat, from + 1)
  }

  /** Python's `pat in s`. */
  function Contains(s: string, pat: string): (b: bool)
    ensures b <==> exists i :: OccursAt(s, pat, i)
  {
    Find(s, pat, 0).Some?
  }

  /** An occurrence inside a prefix is an occurrence in the whole string. */
  lemma OccursInPrefix(s: string, pat: string, n: nat, j: int)
    requires n <= |s|
    requires OccursAt(s[..n], pat, j)
    ensures OccursAt(s, pat, j)
  {
    assert s[..n][j..j + |pat|] == s[j..j + |pat|];
  }

  /** An occurrence inside a suffix is an occurrence in the whole string,
      shifted by the length of what was dropped. */
  lemma OccursInSuffix(s: string, pat: string, n: nat, j: int)
    requires n <= |s|
    requires OccursAt(s[n..], pat, j)
    ensures OccursAt(s, pat, n + j)
  {
    assert s[n..][j..j + |pat|] == s[n + j..n + j + |pat|];
  }

  /** `s.startswith(pre)`. */
  predicate StartsWith(s: string, pre: string) {
    |pre| <= |s| && s[..|pre|] == pre
  }

  /** `s.endswith(suf)`. */
  predicate EndsWith(s: string, suf: string) {
    |suf| <= |s| && s[|s| - |suf|..] == suf
  }

  // ---------------------------------------------------------------------------
  // Whitespace and strip
  // ---------------------------------------------------------------------------

  /** The characters for which `str.isspace()` holds. */
  predicate IsSpace(c: char) {
    || ('\t' <= c <= '\r')
    || ('\U{1C}' <= c <= ' ')
    || c == '\U{85}' || c == '\U{A0}' || c == '\U{1680}'
    || ('\U{2000}' <= c <= '\U{200A}')
    || c == '\U{2028}' || c == '\U{2029}' || c == '\U{202F}' || c == '\U{205F}' || c == '\U{3000}'
  }

  /** `s.lstrip()`: the longest suffix of `s` that does not start with whitespace. */
  function TrimLeft(s: string): (r: string)
    ensures |r| <= |s| && r == s[|s| - |r|..]
    ensures forall i :: 0 <= i < |s| - |r| ==> IsSpace(s[i])
    ensures |r| > 0 ==> !IsSpace(r[0])
  {
    if |s| > 0 && IsSpace(s[0]) then TrimLeft(s[1..]) else s
  }

  /** `s.rstrip()`: the longest prefix of `s` that does not end with whitespace. */
  function TrimRight(s: string): (r: string)
    ensures |r| <= |s| && r == s[..|r|]
    ensures forall i :: |r| <= i < |s| ==> IsSpace(s[i])
    ensures |r| > 0 ==> !IsSpace(r[|r| - 1])
  {
    if |s| > 0 && IsSpace(s[|s| - 1]) then TrimRight(s[..|s| - 1]) else s
  }

  /** `s.strip()`: `s` without leading and trailing whitespace. The result
      is a slice `s[a..b]` with only whitespace outside it, and it neither
      starts nor ends with whitespace. */
  function Strip(s: string): (r: string)
    ensures exists a, b ::
              && 0 <= a <= b <= |s| && r == s[a..b]
              && (forall i :: 0 <= i < a ==> IsSpace(s[i]))
              && (forall i :: b <= i < |s| ==> IsSpace(s[i]))
    ensures |r| > 0 ==> !IsSpace(r[0]) && !IsSpace(r[|r| - 1])
  {
    var l := TrimLeft(s);
    var r := TrimRight(l);
    var a := |s| - |l|;
    assert r == s[a..a + |r|];
    r
  }

  /** A string that neither starts nor ends with whitespace is unchanged by
      `strip()`; in particular stripping twice is stripping once. */
  lemma StripFixed(s: string)
    requires |s| > 0 ==> !IsSpace(s[0]) && !IsSpace(s[|s| - 1])
    ensures Strip(s) == s
  {
  }

  lemma StripIdempotent(s: string)
    ensures Strip(Strip(s)) == Strip(s)
  {
    StripFixed(Strip(s));
  }

  /** `strip()` gives the empty string exactly when every character is whitespace. */
  lemma StripEmptyIffBlank(s: string)
    ensures Strip(s) == "" <==> forall i :: 0 <= i < |s| ==> IsSpace(s[i])
  {
  }

  // ---------------------------------------------------------------------------
  // split / join
  // ---------------------------------------------------------------------------

  /** `s.split(sep)` for a non-empty separator: the pieces between the
      occurrences of `sep` found scanning left to right without overlap. */
  function Split(s: string, sep: string): (parts: seq<string>)
    requires |sep| > 0
    ensures |parts| >= 1
    decreases |s|
  {
    match Find(s, sep, 0)
    case None => [s]
    case Some(i) => [s[..i]] + Split(s[i + |sep|..], sep)
  }

  /** `sep.join(parts)`. */
  function Join(parts: seq<string>, sep: string): string
    requires |parts| >= 1
  {
    if |parts| == 1 then parts[0] else parts[0] + sep + Join(parts[1..], sep)
  }

  lemma JoinCons(head: string, tail: seq<string>, sep: string)
    requires |tail| >= 1
    ensures Join([head] + tail, sep) == head + sep + Join(tail, sep)
  {
    assert ([head] + tail)[1..] == tail;
  }

  /** A string is its text before an occurrence of `sep`, `sep`, and the
      text after it. */
  lemma Reassemble(s: string, sep: string, i: nat)
    requires OccursAt(s, sep, i)
    ensures s == s[..i] + sep + s[i + |sep|..]
  {
    assert s[i..i + |sep|] == sep;
    assert s == s[..i] + s[i..i + |sep|] + s[i + |sep|..];
  }

  /** Joining the pieces of a split with the same separator restores the string. */
  lemma {:induction false} SplitJoin(s: string, sep: string)
    requires |sep| > 0
    ensures Join(Split(s, sep), sep) == s
    decreases |s|
  {
    var f := Find(s, sep, 0);
    if f.Some? {
      var i := f.value;
      var head, rest := s[..i], s[i + |sep|..];
      var tail := Split(rest, sep);
      assert Split(s, sep) == [head] + tail;
      SplitJoin(rest, sep);
      JoinCons(head, tail, sep);
      Reassemble(s, sep, i);
    }
  }

  /** No piece of a split contains the separator. */
  lemma {:induction false} SplitPiecesAvoidSeparator(s: string, sep: string)
    requires |sep| > 0
    ensures forall k :: 0 <= k < |Split(s, sep)| ==> !Contains(Split(s, sep)[k], sep)
    decreases |s|
  {
    match Find(s, sep, 0)
    case None =>
      assert Split(s, sep) == [s];
    case Some(i) =>
      var rest := s[i + |sep|..];
      SplitPiecesAvoidSeparator(rest, sep);
      var head := s[..i];
      if Contains(head, sep) {
        var j :| OccursAt(head, sep, j);
        OccursInPrefix(s, sep, i, j);
      }
      assert Split(s, sep) == [head] + Split(rest, sep);
  }

  /** Every cut a split makes is at the leftmost occurrence still ahead:
      no occurrence of `sep` starts inside a piece before the last, not even
      one that would run into the separator after it. */
  lemma {:induction false} SplitLeftmost(s: string, sep: string)
    requires |sep| > 0
    ensures forall k :: 0 <= k < |Split(s, sep)| - 1 ==>
              !Contains(Split(s, sep)[k] + sep[..|sep| - 1], sep)
    decreases |s|
  {
    match Find(s, sep, 0)
    case None =>
      assert Split(s, sep) == [s];
    case Some(i) =>
      var rest := s[i + |sep|..];
      SplitLeftmost(rest, sep);
      var head := s[..i];
      assert head + sep[..|sep| - 1] == s[..i + |sep| - 1];
      if Contains(head + sep[..|sep| - 1], sep) {
        var j :| OccursAt(s[..i + |sep| - 1], sep, j);
        OccursInPrefix(s, sep, i + |sep| - 1, j);
      }
      assert Split(s, sep) == [head] + Split(rest, sep);
  }

  /** In `h + sep + t` the first occurrence of `sep` is the one right after
      `h` when no occurrence starts inside `h`. */
  lemma FindAfterPiece(h: string, sep: string, t: string)
    requires |sep| > 0
    requires !Contains(h + sep[..|sep| - 1], sep)
    ensures Find(h + sep + t, sep, 0) == Some(|h|)
  {
    var s := h + sep + t;
    assert s[|h|..|h| + |sep|] == sep;
    var n := |h| + |sep| - 1;
    assert s[..n] == h + sep[..|sep| - 1];
    forall j | 0 <= j < |h|
      ensures !OccursAt(s, sep, j)
    {
      if OccursAt(s, sep, j) {
        assert s[..n][j..j + |sep|] == s[j..j + |sep|];
        assert OccursAt(s[..n], sep, j);
      }
    }
    assert OccursAt(s, sep, |h|);
    var f := Find(s, sep, 0);
    assert f.Some? && f.value <= |h|;
  }

  /** The three facts above single the split out: any pieces that join to
      `s`, whose last piece avoids `sep` and whose other pieces are cut at
      the leftmost occurrence, are `Split(s, sep)`. */
  lemma {:induction false} SplitUnique(s: string, sep: string, parts: seq<string>)
    requires |sep| > 0 && |parts| >= 1
    requires Join(parts, sep) == s
    requires !Contains(parts[|parts| - 1], sep)
    requires forall k :: 0 <= k < |parts| - 1 ==> !Contains(parts[k] + sep[..|sep| - 1], sep)
    ensures parts == Split(s, sep)
    decreases |parts|
  {
    if |parts| == 1 {
      assert s == parts[0];
      assert Find(s, sep, 0).None?;
      assert parts == [s];
    } else {
      var h, tail := parts[0], parts[1..];
      var t := Join(tail, sep);
      assert parts == [h] + tail;
      assert s == h + sep + t;
      assert !Contains(h + sep[..|sep| - 1], sep);
      FindAfterPiece(h, sep, t);
      assert s[|h| + |sep|..] == t;
      assert s[..|h|] == h;
      assert Split(s, sep) == [h] + Split(t, sep);
      assert tail[|tail| - 1] == parts[|parts| - 1];
      assert forall k :: 0 <= k < |tail| - 1 ==> !Contains(tail[k] + sep[..|sep| - 1], sep) by {
        forall k | 0 <= k < |tail| - 1
          ensures !Contains(tail[k] + sep[..|sep| - 1], sep)
        {
          assert tail[k] == parts[k + 1];
        }
      }
      SplitUnique(t, sep, tail);
    }
  }

  /** A joined string starts with its first two pieces and the separator
      between them. */
  lemma JoinStartsWith(parts: seq<string>, sep: string)
    requires |parts| >= 2
    ensures StartsWith(Join(parts, sep), parts[0] + sep + parts[1])
  {
    var j := Join(parts[1..], sep);
    assert Join(parts, sep) == parts[0] + sep + j;
    assert StartsWith(j, parts[1]) by {
      if |parts| > 2 {
        assert j == parts[1] + sep + Join(parts[2..], sep);
      }
    }
    assert (parts[0] + sep + j)[..|parts[0] + sep + parts[1]|] == parts[0] + sep + j[..|parts[1]|];
  }

  /** A joined string ends with its last two pieces and the separator
      between them. */
  lemma {:induction false} JoinEndsWith(parts: seq<string>, sep: string)
    requires |parts| >= 2
    ensures EndsWith(Join(parts, sep), parts[|parts| - 2] + sep + parts[|parts| - 1])
  {
    if |parts| > 2 {
      var rest := parts[1..];
      JoinEndsWith(rest, sep);
      var j := Join(rest, sep);
      var suf := parts[|parts| - 2] + sep + parts[|parts| - 1];
      assert rest[|rest| - 2] + sep + rest[|rest| - 1] == suf;
      var pre := parts[0] + sep;
      assert Join(parts, sep) == pre + j;
      assert (pre + j)[|pre + j| - |suf|..] == j[|j| - |suf|..];
    }
  }

  /** With a one-character separator, the first occurrence in
      `a + [c] + b` is right after `a` when `a` does not contain `c`. */
  lemma FindAfterHead(a: string, c: char, b: string)
    requires c !in a
    ensures Find(a + [c] + b, [c], 0) == Some(|a|)
  {
    var s := a + [c] + b;
    assert s[|a|..|a| + 1] == [c];
    assert OccursAt(s, [c], |a|);
    forall j | 0 <= j < |a|
      ensures !OccursAt(s, [c], j)
    {
      assert s[j..j + 1] == [a[j]];
    }
  }

  /** Splitting `a + [c] + b` on `c` gives `a` and then the pieces of `b`,
      when `a` does not contain `c`. */
  lemma SplitAfterHead(a: string, c: char, b: string)
    requires c !in a
    ensures Split(a + [c] + b, [c]) == [a] + Split(b, [c])
  {
    var s := a + [c] + b;
    FindAfterHead(a, c, b);
    assert s[..|a|] == a;
    assert s[|a| + 1..] == b;
  }

  /** Splitting on a one-character separator undoes joining pieces that do
      not contain it. */
  lemma {:induction false} JoinSplit(parts: seq<string>, c: char)
    requires |parts| >= 1
    requires forall k :: 0 <= k < |parts| ==> c !in parts[k]
    ensures Split(Join(parts, [c]), [c]) == parts
    decreases |parts|
  {
    if |parts| == 1 {
    } else {
      var a, rest := parts[0], parts[1..];
      assert forall k :: 0 <= k < |rest| ==> rest[k] == parts[k + 1];
      JoinSplit(rest, c);
      var tail := Join(rest, [c]);
      assert Join(parts, [c]) == a + [c] + tail;
      SplitAfterHead(a, c, tail);
      assert parts == [a] + rest;
    }
  }

  /** A string without the separator splits into itself alone. */
  lemma SplitWithoutSeparator(s: string, sep: string)
    requires |sep| > 0
    requires !Contains(s, sep)
    ensures Split(s, sep) == [s]
  {
  }

  // ---------------------------------------------------------------------------
  // Regular-expression word boundaries
  // ---------------------------------------------------------------------------

  /** The characters `\w` matches in a `str` pattern, restricted to Latin-1:
      ASCII letters, digits and `_`, and the Latin-1 letters and numerals. */
  predicate IsWordChar(c: char) {
    || ('a' <= c <= 'z') || ('A' <= c <= 'Z') || ('0' <= c <= '9') || c == '_'
    || c == 'ª' || c == '²' || c == '³' || c == 'µ'
    || c == '¹' || c == 'º' || ('¼' <= c <= '¾')
    || ('À' <= c <= 'Ö') || ('Ø' <= c <= 'ö') || ('ø' <= c <= 'ÿ')
  }

  /** `\b` at index `i` of `s`: a word character on exactly one side. */
  predicate BoundaryAt(s: string, i: int)
    requires 0 <= i <= |s|
  {
    var before := i > 0 && IsWordChar(s[i - 1]);
    var after := i < |s| && IsWordChar(s[i]);
    before != after
  }

  /** `re.search(r"\b" + pat + r"\b", s)` succeeds at index `i`, for a `pat`
      with no regular-expression metacharacters. */
  predicate WholeWordAt(s: string, pat: string, i: int) {
    OccursAt(s, pat, i) && BoundaryAt(s, i) && BoundaryAt(s, i + |pat|)
  }

  /** Leftmost whole-word match at or after `from`. */
  function FindWholeWord(s: string, pat: string, from: nat): (r: Option<nat>)
    requires from <= |s|
    ensures r.Some? ==> from <= r.value && WholeWordAt(s, pat, r.value)
    ensures r.None? ==> forall j :: from <= j ==> !WholeWordAt(s, pat, j)
    decreases |s| - from
  {
    if from + |pat| > |s| then None
    else if WholeWordAt(s, pat, from) then Some(from)
    else if from == |s| then None
    else FindWholeWord(s, pat, from + 1)
  }

  /** `re.search(rf"\b{pat}\b", s) is not None`. */
  function ContainsWholeWord(s: string, pat: string): (b: bool)
    ensures b <==> exists i :: WholeWordAt(s, pat, i)
  {
    FindWholeWord(s, pat, 0).Some?
  }

  /** A whole-word match is in particular a substring match. */
  lemma WholeWordIsSubstring(s: string, pat: string)
    requires ContainsWholeWord(s, pat)
    ensures Contains(s, pat)
  {
    var i :| WholeWordAt(s, pat, i);
    assert OccursAt(s, pat, i);
  }
}
