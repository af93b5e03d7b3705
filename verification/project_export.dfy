/** The project exporter: walks the project tree, pruning ignored folders
    at every depth, and collects (path, content) rows for the files with an
    exported extension, skipping and counting the ones over 1 MiB and
    truncating the content to what one spreadsheet cell holds. The
    spreadsheet itself is left out; the rows are the result. */
module ProjectExport {
  import opened Wrappers
  import opened Text

  const Extensions: seq<string> := [".py", ".txt", ".json", ".md", ".csv", ".log"]

  const IgnoredFolders: seq<string> := [
    "venv", "__pycache__", ".git", ".idea", "output", "node_modules", ".vscode", "export_txt", "logs"
  ]

  const MaxFileSize: nat := 1 * 1024 * 1024
  const CellLimit: nat := 49999

  /** A file: `size` is `None` when `os.path.getsize` raises, `content` is
      `None` when opening or reading raises. */
  datatype File = File(name: string, size: Option<nat>, content: Option<string>)

  /** A directory with its files and sub-directories in listing order. */
  datatype Dir = Dir(name: string, files: seq<File>, subdirs: seq<Dir>)

  /** A file together with the names of the directories leading to it
      from the root. */
  datatype Located = Located(chain: seq<string>, file: File)

  function Here(files: seq<File>, chain: seq<string>): (r: seq<Located>)
    ensures |r| == |files|
    ensures forall k :: 0 <= k < |r| ==> r[k] == Located(chain, files[k])
  {
    seq(|files|, k requires 0 <= k < |files| => Located(chain, files[k]))
  }

  // ---------------------------------------------------------------------------
  // The walk
  // ---------------------------------------------------------------------------

  /** Every file below `d`, in the order of a top-down walk: the files of a
      directory, then each sub-directory in turn. */
  function AllFiles(d: Dir, chain: seq<string>): (r: seq<Located>)
    ensures forall k :: 0 <= k < |r| ==> |r[k].chain| >= |chain| && r[k].chain[..|chain|] == chain
    decreases d, 1
  {
    Here(d.files, chain) + AllFilesIn(d.subdirs, chain)
  }

  function AllFilesIn(ds: seq<Dir>, chain: seq<string>): (r: seq<Located>)
    ensures forall k :: 0 <= k < |r| ==> |r[k].chain| > |chain| && r[k].chain[..|chain|] == chain
    decreases ds, 0
  {
    if |ds| == 0 then []
    else
      var first := AllFiles(ds[0], chain + [ds[0].name]);
      var rest := AllFilesIn(ds[1..], chain);
      assert forall k :: 0 <= k < |first| ==> first[k].chain[..|chain|] == chain by {
        forall k | 0 <= k < |first| ensures first[k].chain[..|chain|] == chain {
          assert first[k].chain[..|chain| + 1] == chain + [ds[0].name];
          assert first[k].chain[..|chain|] == first[k].chain[..|chain| + 1][..|chain|];
        }
      }
      first + rest
  }

  /** `os.walk` with `dirs[:] = [d for d in dirs if d not in FOLDERS_TO_IGNORE]`:
      an ignored directory is never entered. */
  function Walk(d: Dir, chain: seq<string>): seq<Located>
    decreases d, 1
  {
    Here(d.files, chain) + WalkIn(d.subdirs, chain)
  }

  function WalkIn(ds: seq<Dir>, chain: seq<string>): seq<Located>
    decreases ds, 0
  {
    if |ds| == 0 then []
    else if ds[0].name in IgnoredFolders then WalkIn(ds[1..], chain)
    else Walk(ds[0], chain + [ds[0].name]) + WalkIn(ds[1..], chain)
  }

  /** No directory on the way to the file is ignored. */
  predicate Unignored(l: Located) {
    forall k :: 0 <= k < |l.chain| ==> l.chain[k] !in IgnoredFolders
  }

  /** The files of `ls` that `keep` accepts, in order. */
  function KeepBy(ls: seq<Located>, keep: Located -> bool): (r: seq<Located>)
    ensures forall k :: 0 <= k < |r| ==> keep(r[k])
  {
    if |ls| == 0 then []
    else (if keep(ls[0]) then [ls[0]] else []) + KeepBy(ls[1..], keep)
  }

  lemma {:induction false} KeepByAppend(a: seq<Located>, b: seq<Located>, keep: Located -> bool)
    ensures KeepBy(a + b, keep) == KeepBy(a, keep) + KeepBy(b, keep)
  {
    if |a| == 0 {
      assert a + b == b;
    } else {
      assert (a + b)[0] == a[0] && (a + b)[1..] == a[1..] + b;
      KeepByAppend(a[1..], b, keep);
    }
  }

  /** The files with no ignored directory on their way. */
  function KeepUnignored(ls: seq<Located>): (r: seq<Located>)
    ensures forall k :: 0 <= k < |r| ==> Unignored(r[k])
  {
    KeepBy(ls, Unignored)
  }

  lemma KeepAppend(a: seq<Located>, b: seq<Located>)
    ensures KeepUnignored(a + b) == KeepUnignored(a) + KeepUnignored(b)
  {
    KeepByAppend(a, b, Unignored);
  }

  /** Files whose chain starts with `chain` are all dropped when `chain`
      holds an ignored name. */
  lemma {:induction false} KeepNoneBelow(ls: seq<Located>, chain: seq<string>, i: nat)
    requires i < |chain| && chain[i] in IgnoredFolders
    requires forall k :: 0 <= k < |ls| ==> |ls[k].chain| >= |chain| && ls[k].chain[..|chain|] == chain
    ensures KeepUnignored(ls) == []
  {
    if |ls| > 0 {
      assert ls[0].chain[i] == ls[0].chain[..|chain|][i];
      KeepNoneBelow(ls[1..], chain, i);
    }
  }

  /** Files directly in an unignored directory are all kept. */
  lemma {:induction false} KeepAllHere(files: seq<File>, chain: seq<string>)
    requires forall k :: 0 <= k < |chain| ==> chain[k] !in IgnoredFolders
    ensures KeepUnignored(Here(files, chain)) == Here(files, chain)
  {
    if |files| > 0 {
      assert Here(files, chain)[1..] == Here(files[1..], chain);
      KeepAllHere(files[1..], chain);
    }
  }

  /** The pruned walk lists exactly the files of the full listing that have
      no ignored directory on their way, in the same order: pruning works
      at every depth and loses nothing else. */
  lemma {:induction false} WalkIsPrunedListing(d: Dir, chain: seq<string>)
    requires forall k :: 0 <= k < |chain| ==> chain[k] !in IgnoredFolders
    ensures Walk(d, chain) == KeepUnignored(AllFiles(d, chain))
    decreases d, 1
  {
    KeepAppend(Here(d.files, chain), AllFilesIn(d.subdirs, chain));
    KeepAllHere(d.files, chain);
    WalkInIsPrunedListing(d.subdirs, chain);
  }

  lemma {:induction false} WalkInIsPrunedListing(ds: seq<Dir>, chain: seq<string>)
    requires forall k :: 0 <= k < |chain| ==> chain[k] !in IgnoredFolders
    ensures WalkIn(ds, chain) == KeepUnignored(AllFilesIn(ds, chain))
    decreases ds, 0
  {
    if |ds| > 0 {
      var sub := chain + [ds[0].name];
      var first := AllFiles(ds[0], sub);
      KeepAppend(first, AllFilesIn(ds[1..], chain));
      WalkInIsPrunedListing(ds[1..], chain);
      if ds[0].name in IgnoredFolders {
        KeepNoneBelow(first, sub, |chain|);
      } else {
        WalkIsPrunedListing(ds[0], sub);
      }
    }
  }

  // ---------------------------------------------------------------------------
  // Collecting the rows
  // ---------------------------------------------------------------------------

  predicate Exported(name: string) {
    exists k :: 0 <= k < |Extensions| && EndsWith(name, Extensions[k])
  }

  /** `.replace("\\", "/")`. */
  function Slashes(s: string): (r: string)
    ensures |r| == |s| && '\\' !in r
    ensures forall i :: 0 <= i < |s| ==> r[i] == (if s[i] == '\\' then '/' else s[i])
  {
    seq(|s|, i requires 0 <= i < |s| => if s[i] == '\\' then '/' else s[i])
  }

  /** The path written in the first column: the walk root ".", the chain
      and the file name joined by "/", with backslashes turned into "/". */
  function PathOf(l: Located): (p: string)
    ensures '\\' !in p
  {
    Slashes(Join(["."] + l.chain + [l.file.name], "/"))
  }

  function Min(a: nat, b: nat): nat {
    if a <= b then a else b
  }

  /** What the loop body does with one file. */
  datatype Verdict = NotExported | Unreadable | TooLarge | Row(path: string, content: string)

  function Judge(l: Located): (v: Verdict)
    ensures v.NotExported? <==> !Exported(l.file.name)
    ensures v.TooLarge? <==> Exported(l.file.name) && l.file.size.Some? && l.file.size.value > MaxFileSize
    ensures v.Row? <==> Exported(l.file.name) && l.file.size.Some? && l.file.size.value <= MaxFileSize
                        && l.file.content.Some?
    ensures v.Row? ==> v.path == PathOf(l)
                       && |v.content| == (if |l.file.content.value| <= CellLimit then |l.file.content.value| else CellLimit)
                       && v.content == l.file.content.value[..|v.content|]
  {
    var f := l.file;
    if !Exported(f.name) then NotExported
    else if f.size.None? then Unreadable
    else if f.size.value > MaxFileSize then TooLarge
    else if f.content.None? then Unreadable
    else Row(PathOf(l), f.content.value[..Min(|f.content.value|, CellLimit)])
  }

  /** A file of exactly 1 MiB is still exported; one byte more is not. */
  lemma SizeLimitInclusive(chain: seq<string>, content: string)
    ensures Judge(Located(chain, File("a.py", Some(1048576), Some(content)))).Row?
    ensures Judge(Located(chain, File("a.py", Some(1048577), Some(content)))).TooLarge?
  {
    assert EndsWith("a.py", Extensions[0]);
  }

  /** The loop over a listing, each file decided by `judge`: the rows and
      the number of files skipped for size. */
  function CollectBy(ls: seq<Located>, judge: Located -> Verdict): (r: (seq<(string, string)>, nat))
    ensures |r.0| + r.1 <= |ls|
  {
    if |ls| == 0 then ([], 0)
    else
      var rest := CollectBy(ls[1..], judge);
      var v := judge(ls[0]);
      if v.Row? then ([(v.path, v.content)] + rest.0, rest.1)
      else if v.TooLarge? then (rest.0, rest.1 + 1)
      else rest
  }

  /** `row` is what `judge` made of one of the files in `ls`. */
  predicate JudgedFrom(ls: seq<Located>, judge: Located -> Verdict, row: (string, string)) {
    exists j :: 0 <= j < |ls| && judge(ls[j]) == Row(row.0, row.1)
  }

  lemma {:induction false} RowsAreJudgedBy(ls: seq<Located>, judge: Located -> Verdict)
    ensures forall k :: 0 <= k < |CollectBy(ls, judge).0| ==> JudgedFrom(ls, judge, CollectBy(ls, judge).0[k])
  {
    if |ls| > 0 {
      RowsAreJudgedBy(ls[1..], judge);
      var rows := CollectBy(ls, judge).0;
      var rest := CollectBy(ls[1..], judge).0;
      forall k | 0 <= k < |rows|
        ensures JudgedFrom(ls, judge, rows[k])
      {
        var v := judge(ls[0]);
        if v.Row? {
          assert rows == [(v.path, v.content)] + rest;
          if k == 0 {
            assert judge(ls[0]) == Row(rows[0].0, rows[0].1);
          } else {
            assert rows[k] == rest[k - 1];
            assert JudgedFrom(ls[1..], judge, rest[k - 1]);
            var j :| 0 <= j < |ls[1..]| && judge(ls[1..][j]) == Row(rest[k - 1].0, rest[k - 1].1);
            assert ls[j + 1] == ls[1..][j];
          }
        } else {
          assert rows == rest;
          assert JudgedFrom(ls[1..], judge, rest[k]);
          var j :| 0 <= j < |ls[1..]| && judge(ls[1..][j]) == Row(rest[k].0, rest[k].1);
          assert ls[j + 1] == ls[1..][j];
        }
      }
    }
  }

  lemma {:induction false} CollectByAppend(a: seq<Located>, b: seq<Located>, judge: Located -> Verdict)
    ensures CollectBy(a + b, judge)
         == (CollectBy(a, judge).0 + CollectBy(b, judge).0, CollectBy(a, judge).1 + CollectBy(b, judge).1)
  {
    if |a| == 0 {
      assert a + b == b;
      assert CollectBy(a, judge) == ([], 0);
      assert [] + CollectBy(b, judge).0 == CollectBy(b, judge).0;
    } else {
      assert (a + b)[0] == a[0] && (a + b)[1..] == a[1..] + b;
      CollectByAppend(a[1..], b, judge);
      var v := judge(a[0]);
      if v.Row? {
        assert [(v.path, v.content)] + (CollectBy(a[1..], judge).0 + CollectBy(b, judge).0)
            == ([(v.path, v.content)] + CollectBy(a[1..], judge).0) + CollectBy(b, judge).0;
      }
    }
  }

  /** `project_data` and `files_skipped_size` after the loop. */
  function Collect(ls: seq<Located>): (r: (seq<(string, string)>, nat))
    ensures |r.0| + r.1 <= |ls|
  {
    CollectBy(ls, Judge)
  }

  /** Every row comes from a listed file with an exported extension and a
      size within the limit (see `Judge`). */
  lemma RowsAreJudged(ls: seq<Located>)
    ensures forall k :: 0 <= k < |Collect(ls).0| ==> JudgedFrom(ls, Judge, Collect(ls).0[k])
  {
    RowsAreJudgedBy(ls, Judge);
  }

  /** The loop accumulates: exporting a listing in two parts gives the rows
      of the first part followed by those of the second, and the two skip
      counts add up. */
  lemma CollectAppend(a: seq<Located>, b: seq<Located>)
    ensures Collect(a + b) == (Collect(a).0 + Collect(b).0, Collect(a).1 + Collect(b).1)
  {
    CollectByAppend(a, b, Judge);
  }

  /** A single file is a row, a skip, or nothing, as `Judge` decides. */
  lemma CollectOne(l: Located)
    ensures Judge(l).Row? ==> Collect([l]) == ([(PathOf(l), Judge(l).content)], 0)
    ensures Judge(l).TooLarge? ==> Collect([l]) == ([], 1)
    ensures !Judge(l).Row? && !Judge(l).TooLarge? ==> Collect([l]) == ([], 0)
  {
    assert [l][1..] == [];
    assert Collect([l][1..]) == ([], 0);
    var v := Judge(l);
    if v.Row? {
      assert [(v.path, v.content)] + [] == [(PathOf(l), v.content)];
    }
  }

  /** The export of a project tree, walked from ".". */
  function Export(root: Dir): (r: (seq<(string, string)>, nat)) {
    Collect(Walk(root, []))
  }

  /** Nothing inside an ignored folder is exported or counted: the export
      of the tree is the export of the unignored part of the full listing. */
  lemma ExportSkipsIgnored(root: Dir)
    ensures Export(root) == Collect(KeepUnignored(AllFiles(root, [])))
  {
    WalkIsPrunedListing(root, []);
  }
}
