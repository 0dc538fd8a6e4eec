/** The plagiarism checker page: upload one file, have the AI rate it, show the
    rating as bands and derived source matches, and download a text report. */
module PlagiarismChecker {
  import opened Wrappers
  import opened Text
  import opened Numbers

  /** The upload limit, 5 MiB. */
  const MaxFileSize: nat := 5 * 1024 * 1024

  /** The part of a file's text sent for analysis. */
  const ContentLimit: nat := 50000

  datatype FileInfo = FileInfo(name: string, size: nat)

  /** What the AI returns. The similarity and confidence scores are taken to be whole
      numbers; a fractional score is not represented. */
  datatype Analysis = Analysis(similarity: int, phrases: seq<string>, recommendations: seq<string>, confidence: int)

  datatype Source = Source(name: string, matchPercent: int, url: string)

  /** The AI's answer with the derived sources added. */
  datatype CheckResult = CheckResult(analysis: Analysis, sources: seq<Source>)

  function Min(a: int, b: int): int {
    if a <= b then a else b
  }

  /** `Math.min(95, Math.floor(similarity * tenths / 10))`; Dafny's division by a positive
      divisor rounds down, as Math.floor does. */
  function ScaledMatch(similarity: int, tenths: nat): int {
    Min(95, (tenths * similarity) / 10)
  }

  /** The three fixed sources with their scaled matches, before the filter. */
  function Candidates(similarity: int): seq<Source> {
    [ Source("Wikipedia - 'Machine Learning'", ScaledMatch(similarity, 6), "#"),
      Source("TechCrunch Article - 'The Rise of AI'", ScaledMatch(similarity, 3), "#"),
      Source("A Research Paper on Neural Networks", ScaledMatch(similarity, 1), "#") ]
  }

  /** `.filter(s => s.matchPercent > 0)` */
  function KeepPositive(xs: seq<Source>): (r: seq<Source>)
    ensures |r| <= |xs|
    ensures forall s :: s in r <==> s in xs && s.matchPercent > 0
  {
    if xs == [] then []
    else (if xs[0].matchPercent > 0 then [xs[0]] else []) + KeepPositive(xs[1..])
  }

  lemma KeepAllPositive(xs: seq<Source>)
    requires forall i :: 0 <= i < |xs| ==> xs[i].matchPercent > 0
    ensures KeepPositive(xs) == xs
  {
  }

  lemma {:induction false} KeepPositiveAppend(xs: seq<Source>, ys: seq<Source>)
    ensures KeepPositive(xs + ys) == KeepPositive(xs) + KeepPositive(ys)
  {
    if xs == [] {
      assert xs + ys == ys;
    } else {
      assert (xs + ys)[1..] == xs[1..] + ys;
      KeepPositiveAppend(xs[1..], ys);
    }
  }

  /** sources_found */
  function SourcesFound(similarity: int): (r: seq<Source>)
    ensures |r| <= 3
    ensures forall i :: 0 <= i < |r| ==> 0 < r[i].matchPercent <= 95
    ensures forall s :: s in r ==> s in Candidates(similarity)
    ensures forall s :: s in Candidates(similarity) && s.matchPercent > 0 ==> s in r
  {
    KeepPositive(Candidates(similarity))
  }

  /** How many sources survive: none below 2, then one, two from 4, all three from 10. */
  lemma SourceCount(similarity: int)
    ensures |SourcesFound(similarity)| ==
            if similarity >= 10 then 3 else if similarity >= 4 then 2 else if similarity >= 2 then 1 else 0
  {
    var c := Candidates(similarity);
    assert KeepPositive(c[2..]) == if c[2].matchPercent > 0 then [c[2]] else [] by {
      assert c[2..][1..] == [];
    }
    assert (6 * similarity) / 10 > 0 <==> similarity >= 2;
    assert (3 * similarity) / 10 > 0 <==> similarity >= 4;
    assert (1 * similarity) / 10 > 0 <==> similarity >= 10;
  }

  /** The sources keep the fixed order, so their matches never increase down the list. */
  lemma SourcesDescending(similarity: int)
    ensures var r := SourcesFound(similarity);
            forall i, j :: 0 <= i < j < |r| ==> r[j].matchPercent <= r[i].matchPercent
  {
    var c := Candidates(similarity);
    if similarity >= 0 {
      DivTenMonotone(1 * similarity, 3 * similarity);
      DivTenMonotone(3 * similarity, 6 * similarity);
    }
    assert c[2..][1..] == [];
    SourceCount(similarity);
    var r := SourcesFound(similarity);
    if similarity >= 10 {
      KeepAllPositive(c);
    } else if similarity >= 4 {
      assert c == c[..2] + [c[2]];
      KeepPositiveAppend(c[..2], [c[2]]);
      KeepAllPositive(c[..2]);
    }
  }

  lemma DivTenMonotone(a: int, b: int)
    requires a <= b
    ensures a / 10 <= b / 10
  {
  }

  /** resultSummary */
  datatype Summary = High | Moderate | Low

  /** The summary uses exclusive boundaries on the similarity itself. */
  function SummaryOf(value: Ratio): (s: Summary)
    ensures s == High <==> Exceeds(value, 75)
    ensures s == Low <==> !Exceeds(value, 25)
  {
    if Exceeds(value, 75) then High
    else if Exceeds(value, 25) then Moderate
    else Low
  }

  /** The colour of CircularProgress: green, later overridden by each threshold the rounded
      value passes. */
  datatype Colour = Green | Yellow | Orange | Red

  function ColourOf(value: Ratio): (c: Colour)
    ensures c == Red <==> Round(value) > 75
    ensures c == Green <==> Round(value) <= 25
    ensures c == Orange <==> 50 < Round(value) <= 75
  {
    var p := Round(value);
    var c := Green;
    var c := if p > 25 then Yellow else c;
    var c := if p > 50 then Orange else c;
    if p > 75 then Red else c
  }

  function Heat(c: Colour): nat {
    match c
    case Green => 0
    case Yellow => 1
    case Orange => 2
    case Red => 3
  }

  /** A higher similarity never gets a cooler colour. */
  lemma ColourMonotone(a: Ratio, b: Ratio)
    requires a.num * b.den <= b.num * a.den
    ensures Heat(ColourOf(a)) <= Heat(ColourOf(b))
  {
    RoundMonotone(a, b);
  }

  lemma RoundMonotone(a: Ratio, b: Ratio)
    requires a.num * b.den <= b.num * a.den
    ensures Round(a) <= Round(b)
  {
    var ra, rb := Round(a), Round(b);
    if ra > rb {
      // a >= (2 ra - 1)/2 >= (2 rb + 1)/2 > b contradicts a <= b
      assert a.den * (2 * ra - 1) <= 2 * a.num;
      assert 2 * b.num < b.den * (2 * rb + 1);
      assert (2 * ra - 1) * a.den * b.den <= 2 * a.num * b.den;
      assert 2 * b.num * a.den < (2 * rb + 1) * b.den * a.den;
      LessByPositiveFactor(a.den * b.den, 2 * ra - 1, 2 * rb + 1);
    }
  }

  /** For a whole-number similarity the ring colour and the summary tell the same story. */
  lemma SummaryMatchesColourOnIntegers(similarity: int)
    ensures var v := FromInt(similarity);
            (SummaryOf(v) == High <==> ColourOf(v) == Red)
            && (SummaryOf(v) == Low <==> ColourOf(v) == Green)
  {
    RoundOfInt(similarity);
  }

  /** For a fractional similarity they can part: 75.4 is summarised as high similarity while
      the ring, which rounds to 75, stays orange. Such a value lies outside the whole-number
      similarity `Analysis` carries, so this is stated on the rational the page's two
      functions take, not on a report. */
  lemma SummaryAndColourPartAtFraction()
    ensures SummaryOf(Fraction(377, 5)) == High && ColourOf(Fraction(377, 5)) == Orange
  {
    RoundUnique(Fraction(377, 5), 75);
  }

  /** The source lines of the report, one per source. */
  function SourceLine(s: Source): string {
    "- " + s.name + " (" + IntToString(s.matchPercent) + "% Match)\n"
  }

  function RecommendationLine(r: string): string {
    "- " + r + "\n"
  }

  /** The lines, one after another. */
  function Concat(lines: seq<string>): string {
    if lines == [] then "" else Concat(lines[..|lines| - 1]) + lines[|lines| - 1]
  }

  function SourceLineList(xs: seq<Source>): (lines: seq<string>)
    ensures |lines| == |xs| && forall i :: 0 <= i < |xs| ==> lines[i] == SourceLine(xs[i])
  {
    seq(|xs|, i requires 0 <= i < |xs| => SourceLine(xs[i]))
  }

  function RecommendationLineList(xs: seq<string>): (lines: seq<string>)
    ensures |lines| == |xs| && forall i :: 0 <= i < |xs| ==> lines[i] == RecommendationLine(xs[i])
  {
    seq(|xs|, i requires 0 <= i < |xs| => RecommendationLine(xs[i]))
  }

  function SourceLines(xs: seq<Source>): string {
    Concat(SourceLineList(xs))
  }

  function RecommendationLines(xs: seq<string>): string {
    Concat(RecommendationLineList(xs))
  }

  function FileLine(fileName: string): string {
    "Plagiarism Report for: " + fileName + "\n"
  }

  function HeadBody(date: string, a: Analysis): string {
    "Date: " + date + "\n\n"
    + "OVERALL SIMILARITY: " + IntToString(a.similarity) + "%\n"
    + "Confidence Score: " + IntToString(a.confidence) + "/100\n\n"
    + "--- TOP MATCHED SOURCES ---\n"
  }

  function ReportHead(fileName: string, date: string, a: Analysis): string {
    FileLine(fileName) + HeadBody(date, a)
  }

  /** The report: the header block, then one line per matched source, then the
      recommendations heading and one line per recommendation. */
  function ReportText(fileName: string, date: string, r: CheckResult): string {
    ReportHead(fileName, date, r.analysis) + SourceLines(r.sources)
    + "\n--- RECOMMENDATIONS ---\n" + RecommendationLines(r.analysis.recommendations)
  }

  lemma ContainsInfix(a: string, b: string, c: string, p: string)
    requires Contains(b, p)
    ensures Contains(a + b + c, p)
  {
    var i :| 0 <= i <= |b| - |p| && OccursAt(b, p, i);
    assert (a + b + c)[|a| + i..|a| + i + |p|] == b[i..i + |p|];
    assert OccursAt(a + b + c, p, |a| + i);
  }

  /** Every line is part of the concatenation. */
  lemma {:induction false} ConcatContainsEach(lines: seq<string>, k: nat)
    requires k < |lines|
    ensures Contains(Concat(lines), lines[k])
  {
    var n := |lines| - 1;
    var front := Concat(lines[..n]);
    if k == n {
      assert (front + lines[n])[|front|..|front| + |lines[n]|] == lines[n];
      assert OccursAt(front + lines[n], lines[n], |front|);
    } else {
      assert lines[..n][k] == lines[k];
      ConcatContainsEach(lines[..n], k);
      ContainsInfix("", front, lines[n], lines[k]);
      assert "" + front == front;
    }
  }

  /** Appending line i to the first i lines gives the first i + 1. */
  lemma AppendStep(text: string, lines: seq<string>, i: nat, t: string)
    requires i < |lines| && t == text + Concat(lines[..i])
    ensures t + lines[i] == text + Concat(lines[..i + 1])
  {
    assert lines[..i + 1][..i] == lines[..i];
  }

  lemma SourceLinesContainEach(xs: seq<Source>, k: nat)
    requires k < |xs|
    ensures Contains(SourceLines(xs), SourceLine(xs[k]))
  {
    ConcatContainsEach(SourceLineList(xs), k);
  }

  lemma RecommendationLinesContainEach(xs: seq<string>, k: nat)
    requires k < |xs|
    ensures Contains(RecommendationLines(xs), RecommendationLine(xs[k]))
  {
    ConcatContainsEach(RecommendationLineList(xs), k);
  }

  /** A prefix of a string stays a prefix when more is appended. */
  lemma PrefixThroughAppend(x: string, a: string, b: string)
    requires |x| <= |a| && a[..|x|] == x
    ensures |x| <= |a + b| && (a + b)[..|x|] == x
  {
    assert (a + b)[..|x|] == a[..|x|];
  }

  /** The report opens with the line naming the file. */
  lemma ReportStartsWithFile(fileName: string, date: string, r: CheckResult)
    ensures var t := ReportText(fileName, date, r);
            var head := "Plagiarism Report for: " + fileName + "\n";
            |head| <= |t| && t[..|head|] == head
  {
    var f := FileLine(fileName);
    var h := ReportHead(fileName, date, r.analysis);
    var s := SourceLines(r.sources);
    var m := "\n--- RECOMMENDATIONS ---\n";
    assert f[..|f|] == f;
    PrefixThroughAppend(f, f, HeadBody(date, r.analysis));
    PrefixThroughAppend(f, h, s);
    PrefixThroughAppend(f, h + s, m);
    PrefixThroughAppend(f, h + s + m, RecommendationLines(r.analysis.recommendations));
  }

  /** The report carries a line for every matched source. */
  lemma ReportListsSource(fileName: string, date: string, r: CheckResult, k: nat)
    requires k < |r.sources|
    ensures Contains(ReportText(fileName, date, r), SourceLine(r.sources[k]))
  {
    var h := ReportHead(fileName, date, r.analysis);
    var s := SourceLines(r.sources);
    var mq := "\n--- RECOMMENDATIONS ---\n" + RecommendationLines(r.analysis.recommendations);
    assert ReportText(fileName, date, r) == h + s + mq;
    SourceLinesContainEach(r.sources, k);
    ContainsInfix(h, s, mq, SourceLine(r.sources[k]));
  }

  /** The report carries a line for every recommendation. */
  lemma ReportListsRecommendation(fileName: string, date: string, r: CheckResult, k: nat)
    requires k < |r.analysis.recommendations|
    ensures Contains(ReportText(fileName, date, r), RecommendationLine(r.analysis.recommendations[k]))
  {
    var hsm := ReportHead(fileName, date, r.analysis) + SourceLines(r.sources) + "\n--- RECOMMENDATIONS ---\n";
    var q := RecommendationLines(r.analysis.recommendations);
    assert ReportText(fileName, date, r) == hsm + q + "";
    RecommendationLinesContainEach(r.analysis.recommendations, k);
    ContainsInfix(hsm, q, "", RecommendationLine(r.analysis.recommendations[k]));
  }

  /** The first forEach of handleDownloadReport: one line per source appended to `text`. */
  method AppendSourceLines(text: string, xs: seq<Source>) returns (t: string)
    ensures t == text + SourceLines(xs)
  {
    ghost var lines := SourceLineList(xs);
    t := text;
    var i := 0;
    while i < |xs|
      invariant 0 <= i <= |xs|
      invariant t == text + Concat(lines[..i])
    {
      AppendStep(text, lines, i, t);
      t := t + SourceLine(xs[i]);
      i := i + 1;
    }
    assert lines[..i] == lines;
  }

  /** The second forEach: one line per recommendation appended to `text`. */
  method AppendRecommendationLines(text: string, xs: seq<string>) returns (t: string)
    ensures t == text + RecommendationLines(xs)
  {
    ghost var lines := RecommendationLineList(xs);
    t := text;
    var i := 0;
    while i < |xs|
      invariant 0 <= i <= |xs|
      invariant t == text + Concat(lines[..i])
    {
      AppendStep(text, lines, i, t);
      t := t + RecommendationLine(xs[i]);
      i := i + 1;
    }
    assert lines[..i] == lines;
  }

  class Checker {
    var file: Option<FileInfo>
    var loading: bool
    var result: Option<CheckResult>

    constructor ()
      ensures file.None? && !loading && result.None?
    {
      file, loading, result := None, false, None;
    }

    /** onDrop: the first accepted file replaces the current one and clears the result,
        unless it is over the size limit. */
    method OnDrop(accepted: seq<FileInfo>)
      modifies this
      ensures loading == old(loading)
      ensures accepted == [] || accepted[0].size > MaxFileSize ==> file == old(file) && result == old(result)
      ensures accepted != [] && accepted[0].size <= MaxFileSize ==> file == Some(accepted[0]) && result.None?
    {
      if accepted == [] {
        return;
      }
      var selected := accepted[0];
      if selected.size > MaxFileSize {
        return;
      }
      file := Some(selected);
      result := None;
    }

    /** handleCheckPlagiarism. `read` is the reader's outcome and `ai` the analysis of the
        text sent (None when the AI's text did not parse). Returns the text sent. */
    method CheckPlagiarism(read: Result<string>, ai: Result<Option<Analysis>>) returns (sent: Option<string>)
      modifies this
      ensures file == old(file)
      ensures old(file).None? ==> sent.None? && loading == old(loading) && result == old(result)
      ensures old(file).Some? ==> !loading
      ensures sent.Some? <==> old(file).Some? && read.Ok? && read.value != ""
      ensures sent.Some? ==> sent.value == Truncate(read.value, ContentLimit)
      ensures old(file).Some? ==>
                result == if sent.Some? && ai.Ok? && ai.value.Some?
                          then Some(CheckResult(ai.value.value, SourcesFound(ai.value.value.similarity)))
                          else None
    {
      sent := None;
      if file.None? {
        return;
      }
      loading := true;
      result := None;
      if read.Err? || read.value == "" {
        loading := false;
        return;
      }
      sent := Some(Truncate(read.value, ContentLimit));
      if ai.Ok? && ai.value.Some? {
        var a := ai.value.value;
        result := Some(CheckResult(a, SourcesFound(a.similarity)));
      }
      loading := false;
    }

    /** handleDownloadReport: the report text, built line by line; `date` is the printed clock. */
    method DownloadReport(date: string) returns (report: Option<string>)
      ensures report == if result.None? || file.None? then None else Some(ReportText(file.value.name, date, result.value))
    {
      if result.None? || file.None? {
        return None;
      }
      var r := result.value;
      var text := ReportHead(file.value.name, date, r.analysis);
      text := AppendSourceLines(text, r.sources);
      text := text + "\n--- RECOMMENDATIONS ---\n";
      text := AppendRecommendationLines(text, r.analysis.recommendations);
      report := Some(text);
    }

    /** clearFile */
    method ClearFile()
      modifies this
      ensures file.None? && result.None? && loading == old(loading)
    {
      file, result := None, None;
    }
  }
}
