/** The strategy-summary processor: each non-blank line of the summary
    becomes one record holding the stripped line, the first date written
    in it and a strategy type found by keyword. */
module Strategies {
  import opened Wrappers
  import opened Text

  predicate IsDigit(c: char) {
    '0' <= c <= '9'
  }

  /** `20\d{2}-\d{2}-\d{2}` matches the ten characters at `i`. */
  predicate DateShapeAt(s: string, i: int) {
    && 0 <= i && i + 10 <= |s|
    && s[i] == '2' && s[i + 1] == '0' && IsDigit(s[i + 2]) && IsDigit(s[i + 3])
    && s[i + 4] == '-' && IsDigit(s[i + 5]) && IsDigit(s[i + 6])
    && s[i + 7] == '-' && IsDigit(s[i + 8]) && IsDigit(s[i + 9])
  }

  /** The whole pattern `\b(20\d{2}-\d{2}-\d{2})\b` matches at `i`. */
  predicate DateAt(s: string, i: int) {
    DateShapeAt(s, i) && BoundaryAt(s, i) && BoundaryAt(s, i + 10)
  }

  /** `re.search`: the leftmost match at or after `from`. */
  function FindDate(s: string, from: nat): (r: Option<nat>)
    ensures r.Some? ==> from <= r.value && DateAt(s, r.value)
    ensures r.Some? ==> forall j :: from <= j < r.value ==> !DateAt(s, j)
    ensures r.None? ==> forall j :: from <= j ==> !DateAt(s, j)
    decreases |s| - from
  {
    if from + 10 > |s| then None
    else if DateAt(s, from) then Some(from)
    else FindDate(s, from + 1)
  }

  /** `fecha`: the first date written in the line, or "sin_fecha". */
  function Fecha(line: string): (f: string)
    ensures f != "sin_fecha" <==> exists i :: DateAt(line, i)
    ensures f != "sin_fecha" ==> exists i :: DateAt(line, i) && f == line[i..i + 10]
                                             && forall j :: 0 <= j < i ==> !DateAt(line, j)
  {
    match FindDate(line, 0)
    case None => "sin_fecha"
    case Some(i) =>
      var f := line[i..i + 10];
      assert f[0] == '2' && "sin_fecha"[0] == 's';
      f
  }

  /** `tipo`: the first keyword family found in the lower-cased line wins. */
  function Tipo(line: string): (t: string)
    ensures var low := Lower(line);
            && (t == "Order Block" <==> Contains(low, "order block"))
            && (t == "Cambio Estructura" <==>
                  !Contains(low, "order block") && (Contains(low, "estructura") || Contains(low, "bos")))
            && (t == "Liquidez" <==>
                  !Contains(low, "order block") && !Contains(low, "estructura") && !Contains(low, "bos")
                  && Contains(low, "liquidez"))
            && (t == "Fair Value Gap" <==>
                  !Contains(low, "order block") && !Contains(low, "estructura") && !Contains(low, "bos")
                  && !Contains(low, "liquidez") && Contains(low, "fvg"))
            && (t == "Mitigación" <==>
                  !Contains(low, "order block") && !Contains(low, "estructura") && !Contains(low, "bos")
                  && !Contains(low, "liquidez") && !Contains(low, "fvg") && Contains(low, "mitigación"))
            && (t == "Otro" <==>
                  !Contains(low, "order block") && !Contains(low, "estructura") && !Contains(low, "bos")
                  && !Contains(low, "liquidez") && !Contains(low, "fvg") && !Contains(low, "mitigación"))
  {
    var low := Lower(line);
    if Contains(low, "order block") then "Order Block"
    else if Contains(low, "estructura") || Contains(low, "bos") then "Cambio Estructura"
    else if Contains(low, "liquidez") then "Liquidez"
    else if Contains(low, "fvg") then "Fair Value Gap"
    else if Contains(low, "mitigación") then "Mitigación"
    else "Otro"
  }

  /** One row of the output table. */
  datatype Record = Record(fecha: string, estrategia: string, tipo: string)

  /** The type does not depend on the case the line is written in. */
  lemma TipoIgnoresCase(line: string)
    ensures Tipo(Lower(line)) == Tipo(line)
  {
    LowerIdempotent(line);
  }

  predicate Blank(line: string) {
    Strip(line) == ""
  }

  /** A stored strategy text: not empty, and neither starting nor ending
      with whitespace, so that stripping it again changes nothing
      (`Text.StripFixed`). */
  predicate Clean(s: string) {
    s != "" && !IsSpace(s[0]) && !IsSpace(s[|s| - 1])
  }

  /** The lines of the summary that are not blank, each stripped, in order. */
  function Entries(lines: seq<string>): (es: seq<string>)
    ensures |es| <= |lines|
    ensures forall k :: 0 <= k < |es| ==> Clean(es[k])
  {
    if |lines| == 0 then []
    else
      var rest := Entries(lines[1..]);
      if Blank(lines[0]) then rest
      else [Strip(lines[0])] + rest
  }

  lemma {:induction false} EntriesAppend(a: seq<string>, b: seq<string>)
    ensures Entries(a + b) == Entries(a) + Entries(b)
  {
    if |a| == 0 {
      assert a + b == b;
    } else {
      assert (a + b)[0] == a[0] && (a + b)[1..] == a[1..] + b;
      EntriesAppend(a[1..], b);
    }
  }

  /** The record of one stripped line. */
  function RecordOf(entry: string): (r: Record)
    ensures r.estrategia == entry
  {
    Record(Fecha(entry), entry, Tipo(entry))
  }

  /** `make` applied to each entry, in order. */
  function MapRecords(es: seq<string>, make: string -> Record): (rs: seq<Record>)
    ensures |rs| == |es|
    ensures forall k :: 0 <= k < |rs| ==> rs[k] == make(es[k])
  {
    if |es| == 0 then [] else [make(es[0])] + MapRecords(es[1..], make)
  }

  lemma {:induction false} MapRecordsAppend(a: seq<string>, b: seq<string>, make: string -> Record)
    ensures MapRecords(a + b, make) == MapRecords(a, make) + MapRecords(b, make)
  {
    if |a| == 0 {
      assert a + b == b;
    } else {
      assert (a + b)[0] == a[0] && (a + b)[1..] == a[1..] + b;
      MapRecordsAppend(a[1..], b, make);
    }
  }

  /** The loop over `lineas`: one record per non-blank line, in order,
      holding the stripped line. */
  function Process(lines: seq<string>): (rs: seq<Record>)
    ensures |rs| == |Entries(lines)| <= |lines|
    ensures forall k :: 0 <= k < |rs| ==> rs[k].estrategia == Entries(lines)[k] && Clean(rs[k].estrategia)
  {
    MapRecords(Entries(lines), RecordOf)
  }

  /** The summary read in two parts gives the records of the first part
      followed by those of the second. */
  lemma ProcessAppend(a: seq<string>, b: seq<string>)
    ensures Process(a + b) == Process(a) + Process(b)
  {
    EntriesAppend(a, b);
    MapRecordsAppend(Entries(a), Entries(b), RecordOf);
  }

  /** A single line gives one record exactly when it is not blank. */
  lemma ProcessOne(line: string)
    ensures Blank(line) ==> Process([line]) == []
    ensures !Blank(line) ==> Process([line]) == [RecordOf(Strip(line))]
  {
    assert [line][1..] == [];
  }
}
