/**
  * The data behind the box plots of both scripts: how many scores of a scan
  * type are above 5, the conversion of fetched score texts to integers, the
  * six fixed plot columns with their tick labels, and the two query texts
  * the plots are fed from.  The database itself is a parameter: a function
  * from query text to result rows.
  */
module Plots {
  import opened Wrappers
  import opened Decimal
  import opened Text

  /** The scan types plotted, in column order. */
  const ScanTypeList: seq<string> := ["T1-30", "T2-30", "T1-15", "PDT2-15", "T2-15", "PD-15"]

  // ---------------------------------------------------------------------
  // Scores above 5
  // ---------------------------------------------------------------------

  /** The scores greater than 5, in order. */
  function Above5(scores: seq<int>): (r: seq<int>)
    ensures |r| <= |scores|
    ensures forall x :: x in r <==> x in scores && x > 5
  {
    if scores == [] then []
    else
      var front, last := scores[..|scores| - 1], scores[|scores| - 1];
      assert scores == front + [last];
      Above5(front) + (if last > 5 then [last] else [])
  }

  /** Every score counts exactly when every score is above 5. */
  lemma {:induction false} AllAbove5(scores: seq<int>)
    ensures |Above5(scores)| == |scores| <==> forall i :: 0 <= i < |scores| ==> scores[i] > 5
  {
    if scores != [] {
      var front, last := scores[..|scores| - 1], scores[|scores| - 1];
      AllAbove5(front);
      assert forall i :: 0 <= i < |front| ==> front[i] == scores[i];
    }
  }

  /** No score counts exactly when no score is above 5. */
  lemma NoneAbove5(scores: seq<int>)
    ensures |Above5(scores)| == 0 <==> forall i :: 0 <= i < |scores| ==> scores[i] <= 5
  {
    if |Above5(scores)| != 0 {
      var x := Above5(scores)[0];
      assert x in Above5(scores);
    }
  }

  /** `_findEvalsGreaterThan5` / `FindEvalsGreaterThan5`: the number of scores above 5. */
  method FindEvalsGreaterThan5(evalScores: seq<int>) returns (count: nat)
    ensures count == |Above5(evalScores)|
    ensures count <= |evalScores|
  {
    count := 0;
    for i := 0 to |evalScores|
      invariant count == |Above5(evalScores[..i])|
    {
      assert evalScores[..i + 1][..i] == evalScores[..i];
      if evalScores[i] > 5 {
        count := count + 1;
      }
    }
    assert evalScores[..|evalScores|] == evalScores;
  }

  // ---------------------------------------------------------------------
  // Score texts to integers
  // ---------------------------------------------------------------------

  /** `int(x[0])` for each fetched score text: the scores, or the index of the first text `int` rejects. */
  function EvalList(evals: seq<string>): Result<seq<int>, nat> {
    if evals == [] then Success([])
    else
      var front := EvalList(evals[..|evals| - 1]);
      var last := ParseInt(evals[|evals| - 1]);
      if front.Failure? then front
      else if last.None? then Failure(|evals| - 1)
      else Success(front.value + [last.value])
  }

  /** The last text decides the list once the texts before it have converted. */
  lemma EvalListStep(evals: seq<string>)
    requires evals != []
    ensures var n := |evals| - 1;
      EvalList(evals) ==
        if EvalList(evals[..n]).Failure? then EvalList(evals[..n])
        else if ParseInt(evals[n]).None? then Failure(n)
        else Success(EvalList(evals[..n]).value + [ParseInt(evals[n]).value])
  {
  }

  /** The list is built exactly when every text is an integer, and then holds their values in order. */
  lemma {:induction false} EvalListMeaning(evals: seq<string>)
    ensures EvalList(evals).Success? <==> forall i :: 0 <= i < |evals| ==> ParseInt(evals[i]).Some?
    ensures EvalList(evals).Success? ==>
              |EvalList(evals).value| == |evals| &&
              forall i :: 0 <= i < |evals| ==> ParseInt(evals[i]) == Some(EvalList(evals).value[i])
  {
    if evals != [] {
      var n := |evals| - 1;
      var front := evals[..n];
      EvalListMeaning(front);
      EvalListStep(evals);
      if EvalList(front).Success? && ParseInt(evals[n]).Some? {
        var vs := EvalList(front).value + [ParseInt(evals[n]).value];
        forall i | 0 <= i < |evals|
          ensures ParseInt(evals[i]) == Some(vs[i])
        {
          if i < n {
            assert evals[i] == front[i];
          }
        }
      } else if EvalList(front).Failure? {
        var j :| 0 <= j < n && ParseInt(front[j]).None?;
        assert evals[j] == front[j];
      }
    }
  }

  /** Otherwise the error names the first text that is not an integer. */
  lemma {:induction false} EvalListError(evals: seq<string>)
    ensures EvalList(evals).Failure? ==>
              EvalList(evals).error < |evals| && ParseInt(evals[EvalList(evals).error]).None? &&
              forall j :: 0 <= j < EvalList(evals).error ==> ParseInt(evals[j]).Some?
  {
    if evals != [] {
      var n := |evals| - 1;
      var front := evals[..n];
      EvalListError(front);
      EvalListMeaning(front);
      EvalListStep(evals);
      assert forall i :: 0 <= i < n ==> front[i] == evals[i];
    }
  }

  /** Scores written as `str(n)` convert back to the same scores. */
  lemma {:induction false} EvalListOfScores(scores: seq<int>)
    ensures EvalList(seq(|scores|, i requires 0 <= i < |scores| => IntToString(scores[i]))) == Success(scores)
  {
    var texts := seq(|scores|, i requires 0 <= i < |scores| => IntToString(scores[i]));
    if scores != [] {
      var front := scores[..|scores| - 1];
      assert texts[..|texts| - 1] == seq(|front|, i requires 0 <= i < |front| => IntToString(front[i]));
      EvalListOfScores(front);
      IntRoundTrip(scores[|scores| - 1]);
      LastSplit(scores);
    }
  }

  /** A non-empty sequence is its front followed by its last element. */
  lemma LastSplit<T>(s: seq<T>)
    requires s != []
    ensures s == s[..|s| - 1] + [s[|s| - 1]]
  {
  }

  /** `MakeEvalList`: each text through `int`, stopping with the first `ValueError`. */
  method MakeEvalList(evals: seq<string>) returns (r: Result<seq<int>, nat>)
    ensures r == EvalList(evals)
  {
    var evalList: seq<int> := [];
    for i := 0 to |evals|
      invariant EvalList(evals[..i]) == Success(evalList)
    {
      assert evals[..i + 1][..i] == evals[..i];
      var newEval := ParseInt(evals[i]);
      if newEval.None? {
        EvalListFailureStays(evals, i + 1);
        return Failure(i);
      }
      evalList := evalList + [newEval.value];
    }
    assert evals[..|evals|] == evals;
    r := Success(evalList);
  }

  /** Once a prefix fails, every longer prefix fails the same way. */
  lemma {:induction false} EvalListFailureStays(evals: seq<string>, k: nat)
    requires k <= |evals| && EvalList(evals[..k]).Failure?
    ensures EvalList(evals) == EvalList(evals[..k])
  {
    if k < |evals| {
      var front := evals[..|evals| - 1];
      assert front[..k] == evals[..k];
      EvalListFailureStays(front, k);
      assert evals[..|evals|] == evals;
    } else {
      assert evals[..k] == evals;
    }
  }

  // ---------------------------------------------------------------------
  // Tick labels
  // ---------------------------------------------------------------------

  const LabelOpen := "\n ("

  /** `scan_type + "\n (" + str(count) + "/" + str(len(scores)) + ")"`. */
  function XLabel(scanType: string, scores: seq<int>): string {
    scanType + LabelOpen + IntToString(|Above5(scores)|) + "/" + IntToString(|scores|) + ")"
  }

  /** The tick of a scan type without scores: `scan_type + "\n (0)"`. */
  function EmptyLabel(scanType: string): string {
    scanType + "\n (0)"
  }

  /** What a tick reports: scores above 5 out of all, or no scores at all. */
  datatype Tally = Tally(above: int, total: int) | NoScores

  /** Reads the part between the parentheses: `above/total`, or `0` for no scores. */
  function ReadTally(body: string): Option<Tally> {
    var k := Span(body, '/');
    if k == |body| then (if body == "0" then Some(NoScores) else None)
    else
      var above, total := ParseInt(body[..k]), ParseInt(body[k + 1..]);
      if above.Some? && total.Some? then Some(Tally(above.value, total.value)) else None
  }

  /** Reads a tick back, knowing its scan type. */
  function DecodeLabel(scanType: string, tick: string): Option<Tally> {
    var n := |scanType| + |LabelOpen|;
    if |tick| > n && tick[..n] == scanType + LabelOpen && tick[|tick| - 1] == ')' then
      ReadTally(tick[n..|tick| - 1])
    else None
  }

  /** A tick is read by the part between its parentheses. */
  lemma DecodeBody(scanType: string, body: string)
    ensures DecodeLabel(scanType, scanType + LabelOpen + body + ")") == ReadTally(body)
  {
    var head := scanType + LabelOpen;
    var tick := head + body + ")";
    assert tick[..|head|] == head;
    assert tick[|head|..|tick| - 1] == body;
  }

  lemma ReadCounts(above: nat, total: nat)
    ensures ReadTally(IntToString(above) + "/" + IntToString(total)) == Some(Tally(above, total))
  {
    var a, t := IntToString(above), IntToString(total);
    assert '/' !in a;
    SpanAfter(a, t, '/');
    var body := a + "/" + t;
    assert body == a + ['/'] + t;
    assert body[..|a|] == a && body[|a| + 1..] == t;
    IntRoundTrip(above);
    IntRoundTrip(total);
  }

  /** A tick names the count of scores above 5 and the number of scores. */
  lemma DecodeXLabel(scanType: string, scores: seq<int>)
    ensures DecodeLabel(scanType, XLabel(scanType, scores)) == Some(Tally(|Above5(scores)|, |scores|))
  {
    var body := IntToString(|Above5(scores)|) + "/" + IntToString(|scores|);
    assert XLabel(scanType, scores) == scanType + LabelOpen + body + ")";
    DecodeBody(scanType, body);
    ReadCounts(|Above5(scores)|, |scores|);
  }

  /** The tick of a scan type without scores reads back as "no scores". */
  lemma DecodeEmptyLabel(scanType: string)
    ensures DecodeLabel(scanType, EmptyLabel(scanType)) == Some(NoScores)
  {
    assert EmptyLabel(scanType) == scanType + LabelOpen + "0" + ")";
    DecodeBody(scanType, "0");
    assert Span("0", '/') == 1;
  }

  /** A scan type with scores is never shown like one without: `(0/0)` is not `(0)`. */
  lemma LabelsDiffer(scanType: string, scores: seq<int>)
    ensures XLabel(scanType, scores) != EmptyLabel(scanType)
  {
    DecodeXLabel(scanType, scores);
    DecodeEmptyLabel(scanType);
  }

  // ---------------------------------------------------------------------
  // The six plot columns
  // ---------------------------------------------------------------------

  /** The box and the tick label of one scan type, given the scores per type. */
  function ColumnFor(scanType: string, evals: map<string, seq<int>>): (seq<int>, string) {
    if scanType in evals then (evals[scanType], XLabel(scanType, evals[scanType]))
    else ([], EmptyLabel(scanType))
  }

  /** A column's tick reports its scores, and a missing type has an empty box. */
  lemma ColumnTally(scanType: string, evals: map<string, seq<int>>)
    ensures var (scores, tick) := ColumnFor(scanType, evals);
      && (scanType !in evals ==> scores == [] && DecodeLabel(scanType, tick) == Some(NoScores))
      && (scanType in evals ==> scores == evals[scanType] &&
                                DecodeLabel(scanType, tick) == Some(Tally(|Above5(scores)|, |scores|)))
  {
    if scanType in evals {
      DecodeXLabel(scanType, evals[scanType]);
    } else {
      DecodeEmptyLabel(scanType);
    }
  }

  /** The tick of a present scan type, built as the loop builds it. */
  method PresentLabel(scanType: string, evalScores: seq<int>) returns (tick: string)
    ensures tick == XLabel(scanType, evalScores)
  {
    var count := FindEvalsGreaterThan5(evalScores);
    tick := scanType + "\n (" + IntToString(count) + "/" + IntToString(|evalScores|) + ")";
  }

  /**
    * The loop of `MakePerSiteWhiskerPlots` for one site, and of
    * `getEvalScoresAndXticks` once its scores are fetched: one column per
    * scan type in `scanTypeList`, empty with tick `(0)` when the type has no
    * scores.
    */
  method AlignColumns(scanTypeList: seq<string>, evals: map<string, seq<int>>)
    returns (allEvals: seq<seq<int>>, xLabels: seq<string>)
    ensures |allEvals| == |scanTypeList| && |xLabels| == |scanTypeList|
    ensures forall i :: 0 <= i < |scanTypeList| ==> (allEvals[i], xLabels[i]) == ColumnFor(scanTypeList[i], evals)
  {
    allEvals, xLabels := [], [];
    for i := 0 to |scanTypeList|
      invariant |allEvals| == i && |xLabels| == i
      invariant forall j :: 0 <= j < i ==> (allEvals[j], xLabels[j]) == ColumnFor(scanTypeList[j], evals)
    {
      var scanType := scanTypeList[i];
      if scanType in evals {
        var evalScores := evals[scanType];
        allEvals := allEvals + [evalScores];
        var tick := PresentLabel(scanType, evalScores);
        xLabels := xLabels + [tick];
      } else {
        allEvals := allEvals + [[]];
        xLabels := xLabels + [scanType + "\n (0)"];
      }
    }
  }

  /** The data part of `MakePerSiteWhiskerPlots` for one site: the six fixed columns. */
  method SiteColumns(evals: map<string, seq<int>>) returns (allEvals: seq<seq<int>>, xLabels: seq<string>)
    ensures |allEvals| == |ScanTypeList| && |xLabels| == |ScanTypeList|
    ensures forall i :: 0 <= i < |ScanTypeList| ==> (allEvals[i], xLabels[i]) == ColumnFor(ScanTypeList[i], evals)
  {
    allEvals, xLabels := AlignColumns(ScanTypeList, evals);
  }

  /**
    * The loop of `MakeWhiskerPlot`: every scan type is looked up in the
    * dictionary, so the first one missing raises `KeyError` (here its name).
    */
  method LookUpColumns(scanTypeList: seq<string>, evalDict: map<string, seq<int>>)
    returns (r: Result<(seq<seq<int>>, seq<string>), string>)
    ensures r.Success? <==> forall i :: 0 <= i < |scanTypeList| ==> scanTypeList[i] in evalDict
    ensures r.Success? ==>
              |r.value.0| == |scanTypeList| && |r.value.1| == |scanTypeList| &&
              forall i :: 0 <= i < |scanTypeList| ==> (r.value.0[i], r.value.1[i]) == ColumnFor(scanTypeList[i], evalDict)
    ensures r.Failure? ==>
              exists i :: 0 <= i < |scanTypeList| && r.error == scanTypeList[i] && r.error !in evalDict &&
                          forall j :: 0 <= j < i ==> scanTypeList[j] in evalDict
  {
    var allEvals: seq<seq<int>>, xLabels: seq<string> := [], [];
    for i := 0 to |scanTypeList|
      invariant |allEvals| == i && |xLabels| == i
      invariant forall j :: 0 <= j < i ==> scanTypeList[j] in evalDict
      invariant forall j :: 0 <= j < i ==> (allEvals[j], xLabels[j]) == ColumnFor(scanTypeList[j], evalDict)
    {
      var scanType := scanTypeList[i];
      if scanType !in evalDict {
        r := Failure(scanType);
        assert 0 <= i < |scanTypeList| && r.error == scanTypeList[i] && r.error !in evalDict;
        return;
      }
      var evalScores := evalDict[scanType];
      allEvals := allEvals + [evalScores];
      var tick := PresentLabel(scanType, evalScores);
      xLabels := xLabels + [tick];
    }
    r := Success((allEvals, xLabels));
  }

  /** `MakeWhiskerPlot`'s data: the six fixed columns, or `KeyError` for the first fixed type missing. */
  method MakeWhiskerPlot(evalDict: map<string, seq<int>>) returns (r: Result<(seq<seq<int>>, seq<string>), string>)
    ensures r.Success? <==> forall i :: 0 <= i < |ScanTypeList| ==> ScanTypeList[i] in evalDict
    ensures r.Success? ==>
              |r.value.0| == |ScanTypeList| && |r.value.1| == |ScanTypeList| &&
              forall i :: 0 <= i < |ScanTypeList| ==> (r.value.0[i], r.value.1[i]) == ColumnFor(ScanTypeList[i], evalDict)
    ensures r.Failure? ==>
              exists i :: 0 <= i < |ScanTypeList| && r.error == ScanTypeList[i] && r.error !in evalDict &&
                          forall j :: 0 <= j < i ==> ScanTypeList[j] in evalDict
  {
    r := LookUpColumns(ScanTypeList, evalDict);
  }

  // ---------------------------------------------------------------------
  // Query texts
  // ---------------------------------------------------------------------

  const Query1All := "SELECT DISTINCT scantype FROM ImageEval;"
  const Query1Site := "SELECT DISTINCT scantype FROM ImageEval WHERE project = '"
  const Query2Head := "SELECT overallqaassessment FROM ImageEval WHERE "
  const ScanTypeFilter := "scantype = '"
  const ProjectFilter := "project = '"
  const AndScanType := "' AND scantype = '"
  const QuoteEnd := "';"

  /** `getQuery1`: the distinct scan types, of one project when a site is given. */
  function GetQuery1(site: Option<string>): string {
    if site.None? then Query1All else Query1Site + site.value + QuoteEnd
  }

  /** `getQuery2`: the scores of one scan type, of one project when a site is given. */
  function GetQuery2(site: Option<string>, scanType: string): string {
    if site.None? then Query2Head + ScanTypeFilter + scanType + QuoteEnd
    else Query2Head + ProjectFilter + site.value + AndScanType + scanType + QuoteEnd
  }

  /** Reads back the project filter of a scan-type query: `Some(None)` when there is none. */
  function Query1Filter(q: string): Option<Option<string>> {
    if q == Query1All then Some(None)
    else if |q| >= |Query1Site| + |QuoteEnd| && q[..|Query1Site|] == Query1Site && q[|q| - |QuoteEnd|..] == QuoteEnd then
      Some(Some(q[|Query1Site|..|q| - |QuoteEnd|]))
    else None
  }

  /** Reads back the project filter and the scan type of a score query. */
  function Query2Filter(q: string): Option<(Option<string>, string)> {
    if |q| >= |Query2Head| && q[..|Query2Head|] == Query2Head then ReadFilters(q[|Query2Head|..])
    else None
  }

  /** The part after `WHERE `: a scan-type filter alone, or a project filter and then a scan-type filter. */
  function ReadFilters(rest: string): Option<(Option<string>, string)> {
    if |rest| >= |ScanTypeFilter| + |QuoteEnd| && rest[..|ScanTypeFilter|] == ScanTypeFilter &&
       rest[|rest| - |QuoteEnd|..] == QuoteEnd then
      Some((None, rest[|ScanTypeFilter|..|rest| - |QuoteEnd|]))
    else if |rest| >= |ProjectFilter| && rest[..|ProjectFilter|] == ProjectFilter then
      ReadProject(rest[|ProjectFilter|..])
    else None
  }

  /** The part after `project = '`: the site up to its closing quote, then the scan-type filter. */
  function ReadProject(tail: string): Option<(Option<string>, string)> {
    var k := Span(tail, '\'');
    var after := tail[k..];
    if |after| >= |AndScanType| + |QuoteEnd| && after[..|AndScanType|] == AndScanType &&
       after[|after| - |QuoteEnd|..] == QuoteEnd then
      Some((Some(tail[..k]), after[|AndScanType|..|after| - |QuoteEnd|]))
    else None
  }

  /** The scan-type query filters on a project exactly when a site is given, and on that site. */
  lemma Query1RoundTrip(site: Option<string>)
    ensures Query1Filter(GetQuery1(site)) == Some(site)
  {
    if site.Some? {
      var q := GetQuery1(site);
      assert |q| != |Query1All|;
      assert q[..|Query1Site|] == Query1Site;
      assert q[|q| - |QuoteEnd|..] == QuoteEnd;
      assert q[|Query1Site|..|q| - |QuoteEnd|] == site.value;
    }
  }

  /** Splitting `a + b` after `a` gives back both parts. */
  lemma SliceConcat(a: string, b: string)
    ensures (a + b)[..|a|] == a && (a + b)[|a|..] == b
  {
  }

  /** `x + m + y` with the known ends cut off is `m`. */
  lemma Between(x: string, m: string, y: string)
    ensures |x + m + y| >= |x| + |y|
    ensures (x + m + y)[..|x|] == x && (x + m + y)[|x + m + y| - |y|..] == y
    ensures (x + m + y)[|x|..|x + m + y| - |y|] == m
  {
  }

  lemma Query2WithoutSite(scanType: string)
    ensures Query2Filter(GetQuery2(None, scanType)) == Some((None, scanType))
  {
    var rest := ScanTypeFilter + scanType + QuoteEnd;
    assert GetQuery2(None, scanType) == Query2Head + rest;
    SliceConcat(Query2Head, rest);
    Between(ScanTypeFilter, scanType, QuoteEnd);
  }

  lemma ReadProjectOf(site: string, scanType: string)
    requires '\'' !in site
    ensures ReadProject(site + AndScanType + scanType + QuoteEnd) == Some((Some(site), scanType))
  {
    var after := AndScanType + scanType + QuoteEnd;
    var tail := site + after;
    assert tail == site + AndScanType + scanType + QuoteEnd;
    assert after == ['\''] + after[1..];
    SpanAfter(site, after[1..], '\'');
    assert tail == site + ['\''] + after[1..];
    SliceConcat(site, after);
    Between(AndScanType, scanType, QuoteEnd);
  }

  lemma ReadFiltersOfProject(tail: string)
    ensures ReadFilters(ProjectFilter + tail) == ReadProject(tail)
  {
    var rest := ProjectFilter + tail;
    SliceConcat(ProjectFilter, tail);
    assert rest[0] == 'p';
    if |rest| >= |ScanTypeFilter| {
      assert rest[..|ScanTypeFilter|][0] != ScanTypeFilter[0];
    }
  }

  lemma Query2WithSite(site: string, scanType: string)
    requires '\'' !in site
    ensures Query2Filter(GetQuery2(Some(site), scanType)) == Some((Some(site), scanType))
  {
    var tail := site + AndScanType + scanType + QuoteEnd;
    assert GetQuery2(Some(site), scanType) == Query2Head + (ProjectFilter + tail);
    SliceConcat(Query2Head, ProjectFilter + tail);
    ReadFiltersOfProject(tail);
    ReadProjectOf(site, scanType);
  }

  /**
    * The score query filters on a project exactly when a site is given, and
    * on that site and scan type; a site is read back only up to its first
    * quote, so it must have none.
    */
  lemma Query2RoundTrip(site: Option<string>, scanType: string)
    requires site.Some? ==> '\'' !in site.value
    ensures Query2Filter(GetQuery2(site, scanType)) == Some((site, scanType))
  {
    if site.None? {
      Query2WithoutSite(scanType);
    } else {
      Query2WithSite(site.value, scanType);
    }
  }

  // ---------------------------------------------------------------------
  // getEvalScoresAndXticks
  // ---------------------------------------------------------------------

  /**
    * The scores per scan type that `getEvalScoresAndXticks` sees: the types
    * the scan-type query returns, each with what its score query returns.
    */
  function FetchedScores(site: Option<string>, scanTypesOf: string -> seq<string>,
                         scoresOf: string -> seq<int>): map<string, seq<int>> {
    var dbScanTypes := scanTypesOf(GetQuery1(site));
    map t | t in dbScanTypes :: scoresOf(GetQuery2(site, t))
  }

  /**
    * `getEvalScoresAndXticks`: one column per fixed scan type; a type the
    * database lists gets its fetched scores and the `(count/total)` tick,
    * any other an empty box and `(0)`.
    */
  method GetEvalScoresAndXticks(site: Option<string>, scanTypesOf: string -> seq<string>, scoresOf: string -> seq<int>)
    returns (allEvals: seq<seq<int>>, xLabels: seq<string>, scanTypeList: seq<string>)
    ensures scanTypeList == ScanTypeList
    ensures |allEvals| == |ScanTypeList| && |xLabels| == |ScanTypeList|
    ensures forall i :: 0 <= i < |ScanTypeList| ==>
              (allEvals[i], xLabels[i]) == ColumnFor(ScanTypeList[i], FetchedScores(site, scanTypesOf, scoresOf))
  {
    scanTypeList := ScanTypeList;
    allEvals, xLabels := FetchColumns(site, scanTypeList, scanTypesOf, scoresOf);
  }

  /** The loop of `getEvalScoresAndXticks`, over the scan types in `scanTypeList`. */
  method FetchColumns(site: Option<string>, scanTypeList: seq<string>, scanTypesOf: string -> seq<string>,
                      scoresOf: string -> seq<int>)
    returns (allEvals: seq<seq<int>>, xLabels: seq<string>)
    ensures |allEvals| == |scanTypeList| && |xLabels| == |scanTypeList|
    ensures forall i :: 0 <= i < |scanTypeList| ==>
              (allEvals[i], xLabels[i]) == ColumnFor(scanTypeList[i], FetchedScores(site, scanTypesOf, scoresOf))
  {
    allEvals, xLabels := [], [];
    var query1 := GetQuery1(site);
    var dbScanTypes := scanTypesOf(query1);
    ghost var fetched := FetchedScores(site, scanTypesOf, scoresOf);
    for i := 0 to |scanTypeList|
      invariant |allEvals| == i && |xLabels| == i
      invariant forall j :: 0 <= j < i ==> (allEvals[j], xLabels[j]) == ColumnFor(scanTypeList[j], fetched)
    {
      var scanType := scanTypeList[i];
      if scanType in dbScanTypes {
        var query2 := GetQuery2(site, scanType);
        var evalScores := scoresOf(query2);
        allEvals := allEvals + [evalScores];
        var tick := PresentLabel(scanType, evalScores);
        xLabels := xLabels + [tick];
      } else {
        allEvals := allEvals + [[]];
        xLabels := xLabels + [scanType + "\n (0)"];
      }
    }
  }
}
