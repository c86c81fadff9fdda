/**
  * `printInfoToCSVfile`: the rows `getImageFileInfoFromDB` returns (image
  * files scored above 5, ordered by project, subject, session, scan type)
  * are scanned once; consecutive rows with the same session form a group,
  * whose line maps each scan type to its image files in row order.  A line
  * is written only when the session changes, so the last group is never
  * written: `PrintInfoToCSVfile` models that, `PrintInfoToCSVfileFlushed`
  * the scan with the final flush.
  */
module SessionExport {
  import opened Wrappers

  /** One result row: `project, subject, session, overallqaassessment, scantype, imagefile`, as text. */
  datatype ImageFileRow = ImageFileRow(project: string, subject: string, session: string, score: string,
                                       scanType: string, imagefile: string)

  /** One output line: the group's session, the project and subject of its last row, and its files per scan type. */
  datatype SessionLine = SessionLine(project: string, subject: string, session: string,
                                     files: map<string, seq<string>>)

  /** A row of the CSV file: the column titles, then one per written group. */
  datatype CsvRow = HeaderRow | Line(line: SessionLine)

  /** `eval_dict[scan_type].append(imagefile)`, or a new one-file list for a new scan type. */
  function AddFile(files: map<string, seq<string>>, scanType: string, imagefile: string): map<string, seq<string>> {
    if scanType in files then files[scanType := files[scanType] + [imagefile]]
    else files[scanType := [imagefile]]
  }

  /** The line the scan holds after each row: the groups seen so far, the current one last. */
  function Groups(rows: seq<ImageFileRow>): (gs: seq<SessionLine>)
    ensures |gs| <= |rows|
    ensures rows != [] ==> gs != [] && gs[|gs| - 1].session == rows[|rows| - 1].session
  {
    if rows == [] then []
    else
      var gs := Groups(rows[..|rows| - 1]);
      var r := rows[|rows| - 1];
      if gs == [] || gs[|gs| - 1].session != r.session then
        gs + [SessionLine(r.project, r.subject, r.session, map[r.scanType := [r.imagefile]])]
      else
        gs[..|gs| - 1] + [SessionLine(r.project, r.subject, r.session, AddFile(gs[|gs| - 1].files, r.scanType, r.imagefile))]
  }

  function AllButLast<T>(s: seq<T>): seq<T> {
    if s == [] then [] else s[..|s| - 1]
  }

  function Lines(gs: seq<SessionLine>): (rows: seq<CsvRow>)
    ensures |rows| == |gs|
  {
    seq(|gs|, i requires 0 <= i < |gs| => Line(gs[i]))
  }

  lemma LinesSnoc(gs: seq<SessionLine>, g: SessionLine)
    ensures Lines(gs + [g]) == Lines(gs) + [Line(g)]
  {
  }

  /** One more row either opens a new group or extends the current one. */
  lemma GroupsStep(rows: seq<ImageFileRow>, r: ImageFileRow)
    ensures var gs := Groups(rows);
      var next := Groups(rows + [r]);
      if gs == [] || gs[|gs| - 1].session != r.session then
        && next == gs + [SessionLine(r.project, r.subject, r.session, map[r.scanType := [r.imagefile]])]
        && AllButLast(next) == gs
      else
        && next == gs[..|gs| - 1] + [SessionLine(r.project, r.subject, r.session,
                                                 AddFile(gs[|gs| - 1].files, r.scanType, r.imagefile))]
        && AllButLast(next) == AllButLast(gs)
  {
    assert (rows + [r])[..|rows|] == rows;
  }

  lemma NewGroup(rows: seq<ImageFileRow>, r: ImageFileRow)
    requires Groups(rows) == [] || Groups(rows)[|Groups(rows)| - 1].session != r.session
    ensures Groups(rows + [r]) == Groups(rows) + [SessionLine(r.project, r.subject, r.session, map[r.scanType := [r.imagefile]])]
  {
    GroupsStep(rows, r);
  }

  lemma SameGroup(rows: seq<ImageFileRow>, r: ImageFileRow)
    requires Groups(rows) != [] && Groups(rows)[|Groups(rows)| - 1].session == r.session
    ensures var gs := Groups(rows);
      Groups(rows + [r]) == gs[..|gs| - 1] + [SessionLine(r.project, r.subject, r.session,
                                                       AddFile(gs[|gs| - 1].files, r.scanType, r.imagefile))]
  {
    GroupsStep(rows, r);
  }

  // ---------------------------------------------------------------------
  // An independent description of the groups: runs of one session
  // ---------------------------------------------------------------------

  /** The rows cut into maximal runs of consecutive rows with the same session. */
  function Runs(rows: seq<ImageFileRow>): (rs: seq<seq<ImageFileRow>>)
    ensures rows != [] ==> rs != [] && rs[|rs| - 1] != [] &&
                           rs[|rs| - 1][|rs[|rs| - 1]| - 1] == rows[|rows| - 1]
  {
    if rows == [] then []
    else
      var rs := Runs(rows[..|rows| - 1]);
      var r := rows[|rows| - 1];
      if rs == [] || rs[|rs| - 1][|rs[|rs| - 1]| - 1].session != r.session then rs + [[r]]
      else rs[..|rs| - 1] + [rs[|rs| - 1] + [r]]
  }

  function Flatten<T>(ss: seq<seq<T>>): seq<T> {
    if ss == [] then [] else Flatten(ss[..|ss| - 1]) + ss[|ss| - 1]
  }

  predicate OneSession(run: seq<ImageFileRow>) {
    forall i :: 0 <= i < |run| ==> run[i].session == run[0].session
  }

  /** The runs partition the rows: in order, non-empty, one session each, and adjacent runs differ in session. */
  ghost predicate Partition(rows: seq<ImageFileRow>, rs: seq<seq<ImageFileRow>>) {
    && Flatten(rs) == rows
    && (forall k :: 0 <= k < |rs| ==> rs[k] != [] && OneSession(rs[k]))
    && (forall j, k :: 0 <= j < |rs| && k == j + 1 && k < |rs| ==>
                      rs[j] != [] && rs[k] != [] && rs[j][0].session != rs[k][0].session)
  }

  lemma {:induction false} RunsFlatten(rows: seq<ImageFileRow>)
    ensures Flatten(Runs(rows)) == rows
  {
    if rows != [] {
      var front, r := rows[..|rows| - 1], rows[|rows| - 1];
      assert rows == front + [r];
      RunsFlatten(front);
      var rs: seq<seq<ImageFileRow>> := Runs(front);
      if rs == [] || rs[|rs| - 1][|rs[|rs| - 1]| - 1].session != r.session {
        assert (rs + [[r]])[..|rs|] == rs;
      } else {
        var next := rs[..|rs| - 1] + [rs[|rs| - 1] + [r]];
        assert next[..|rs| - 1] == rs[..|rs| - 1];
      }
    }
  }

  lemma {:induction false} RunsOneSession(rows: seq<ImageFileRow>)
    ensures forall k :: 0 <= k < |Runs(rows)| ==> Runs(rows)[k] != [] && OneSession(Runs(rows)[k])
  {
    if rows != [] {
      var front, r := rows[..|rows| - 1], rows[|rows| - 1];
      RunsOneSession(front);
      var rs: seq<seq<ImageFileRow>> := Runs(front);
      if rs != [] && rs[|rs| - 1][|rs[|rs| - 1]| - 1].session == r.session {
        var last := rs[|rs| - 1];
        assert last[|last| - 1].session == last[0].session;
        assert OneSession(last + [r]);
      }
    }
  }

  lemma {:induction false} RunsAdjacent(rows: seq<ImageFileRow>)
    ensures forall j, k :: 0 <= j < |Runs(rows)| && k == j + 1 && k < |Runs(rows)| ==>
                           Runs(rows)[j] != [] && Runs(rows)[k] != [] && Runs(rows)[j][0].session != Runs(rows)[k][0].session
  {
    if rows != [] {
      var front, r := rows[..|rows| - 1], rows[|rows| - 1];
      RunsAdjacent(front);
      RunsOneSession(front);
      var rs: seq<seq<ImageFileRow>> := Runs(front);
      if rs != [] {
        var last := rs[|rs| - 1];
        assert last[|last| - 1].session == last[0].session;
      }
    }
  }

  lemma RunsPartition(rows: seq<ImageFileRow>)
    ensures Partition(rows, Runs(rows))
  {
    RunsFlatten(rows);
    RunsOneSession(rows);
    RunsAdjacent(rows);
  }

  /** The files of one scan type in a run, in row order. */
  function OfType(run: seq<ImageFileRow>, scanType: string): seq<string> {
    if run == [] then []
    else
      var r := run[|run| - 1];
      OfType(run[..|run| - 1], scanType) + (if r.scanType == scanType then [r.imagefile] else [])
  }

  function TypesOf(run: seq<ImageFileRow>): set<string> {
    set r | r in run :: r.scanType
  }

  /** A run's files: each scan type that occurs, mapped to its files in row order. */
  function FilesOf(run: seq<ImageFileRow>): map<string, seq<string>> {
    map t | t in TypesOf(run) :: OfType(run, t)
  }

  /** A run's line: its session, the project and subject of its last row, and its files. */
  function GroupOf(run: seq<ImageFileRow>): SessionLine
    requires run != []
  {
    var r := run[|run| - 1];
    SessionLine(r.project, r.subject, r.session, FilesOf(run))
  }

  lemma {:induction false} OfTypeAbsent(run: seq<ImageFileRow>, scanType: string)
    requires scanType !in TypesOf(run)
    ensures OfType(run, scanType) == []
  {
    if run != [] {
      var front := run[..|run| - 1];
      assert TypesOf(front) <= TypesOf(run);
      OfTypeAbsent(front, scanType);
    }
  }

  lemma FilesOfSnoc(run: seq<ImageFileRow>, r: ImageFileRow)
    ensures FilesOf(run + [r]) == AddFile(FilesOf(run), r.scanType, r.imagefile)
  {
    var next := run + [r];
    assert next[..|run|] == run;
    assert TypesOf(next) == TypesOf(run) + {r.scanType};
    var files, added := FilesOf(run), AddFile(FilesOf(run), r.scanType, r.imagefile);
    if r.scanType !in TypesOf(run) {
      OfTypeAbsent(run, r.scanType);
    }
    assert added.Keys == TypesOf(next);
    forall t | t in TypesOf(next)
      ensures FilesOf(next)[t] == added[t]
    {
      assert OfType(next, t) == OfType(run, t) + (if r.scanType == t then [r.imagefile] else []);
    }
  }

  /** One more row either opens a new run or extends the last one. */
  lemma RunsStep(rows: seq<ImageFileRow>, r: ImageFileRow)
    ensures var rs := Runs(rows);
      if rs == [] || rs[|rs| - 1][|rs[|rs| - 1]| - 1].session != r.session then Runs(rows + [r]) == rs + [[r]]
      else Runs(rows + [r]) == rs[..|rs| - 1] + [rs[|rs| - 1] + [r]]
  {
    assert (rows + [r])[..|rows|] == rows;
  }

  /** Line for line, the groups of the scan are the lines of the runs. */
  lemma {:induction false} GroupsAreRuns(rows: seq<ImageFileRow>)
    ensures |Groups(rows)| == |Runs(rows)|
    ensures forall k :: 0 <= k < |Runs(rows)| ==> Runs(rows)[k] != [] && Groups(rows)[k] == GroupOf(Runs(rows)[k])
  {
    if rows != [] {
      var front, r := rows[..|rows| - 1], rows[|rows| - 1];
      assert rows == front + [r];
      GroupsAreRuns(front);
      var rs: seq<seq<ImageFileRow>> := Runs(front);
      if rs == [] || rs[|rs| - 1][|rs[|rs| - 1]| - 1].session != r.session {
        NewRunNewGroup(front, r);
      } else {
        SameRunSameGroup(front, r);
      }
    }
  }

  /** The groups are the lines of the runs. */
  ghost predicate GroupsMatchRuns(rows: seq<ImageFileRow>) {
    && |Groups(rows)| == |Runs(rows)|
    && forall k :: 0 <= k < |Runs(rows)| ==> Runs(rows)[k] != [] && Groups(rows)[k] == GroupOf(Runs(rows)[k])
  }

  lemma NewRunNewGroup(front: seq<ImageFileRow>, r: ImageFileRow)
    requires GroupsMatchRuns(front)
    requires var rs: seq<seq<ImageFileRow>> := Runs(front); rs == [] || rs[|rs| - 1][|rs[|rs| - 1]| - 1].session != r.session
    ensures GroupsMatchRuns(front + [r])
  {
    RunsStep(front, r);
    LastGroupDiffers(front, r);
    NewGroup(front, r);
    SingleRowGroup(r);
    var gs: seq<SessionLine>, rs: seq<seq<ImageFileRow>> := Groups(front), Runs(front);
    var gs': seq<SessionLine>, rs': seq<seq<ImageFileRow>> := Groups(front + [r]), Runs(front + [r]);
    forall k | 0 <= k < |rs'|
      ensures rs'[k] != [] && gs'[k] == GroupOf(rs'[k])
    {
      if k < |rs| {
        assert rs'[k] == rs[k] && gs'[k] == gs[k];
      }
    }
  }

  lemma LastGroupDiffers(front: seq<ImageFileRow>, r: ImageFileRow)
    requires GroupsMatchRuns(front)
    requires var rs: seq<seq<ImageFileRow>> := Runs(front); rs == [] || rs[|rs| - 1][|rs[|rs| - 1]| - 1].session != r.session
    ensures Groups(front) == [] || Groups(front)[|Groups(front)| - 1].session != r.session
  {
    var gs: seq<SessionLine>, rs: seq<seq<ImageFileRow>> := Groups(front), Runs(front);
    if rs != [] {
      assert gs[|gs| - 1] == GroupOf(rs[|rs| - 1]);
    }
  }

  lemma SingleRowGroup(r: ImageFileRow)
    ensures GroupOf([r]) == SessionLine(r.project, r.subject, r.session, map[r.scanType := [r.imagefile]])
  {
    FilesOfSnoc([], r);
    assert [] + [r] == [r];
  }

  lemma SameRunSameGroup(front: seq<ImageFileRow>, r: ImageFileRow)
    requires GroupsMatchRuns(front)
    requires var rs: seq<seq<ImageFileRow>> := Runs(front); rs != [] && rs[|rs| - 1][|rs[|rs| - 1]| - 1].session == r.session
    ensures GroupsMatchRuns(front + [r])
  {
    RunsStep(front, r);
    var gs: seq<SessionLine>, rs: seq<seq<ImageFileRow>> := Groups(front), Runs(front);
    var last := rs[|rs| - 1];
    assert gs[|gs| - 1] == GroupOf(last);
    SameGroup(front, r);
    FilesOfSnoc(last, r);
    assert GroupOf(last + [r]) ==
      SessionLine(r.project, r.subject, r.session, AddFile(gs[|gs| - 1].files, r.scanType, r.imagefile));
    var gs': seq<SessionLine>, rs': seq<seq<ImageFileRow>> := Groups(front + [r]), Runs(front + [r]);
    forall k | 0 <= k < |rs'|
      ensures rs'[k] != [] && gs'[k] == GroupOf(rs'[k])
    {
      if k < |rs| - 1 {
        assert rs'[k] == rs[k] && gs'[k] == gs[k];
      }
    }
  }

  // ---------------------------------------------------------------------
  // The scan, one row at a time
  // ---------------------------------------------------------------------

  /** The variables the loop of `printInfoToCSVfile` carries from row to row. */
  datatype ScanState = ScanState(tmpSession: Option<string>, line: Option<SessionLine>,
                                 evalDict: map<string, seq<string>>, written: seq<CsvRow>)

  /** One row: a new session writes the held line (if any) and starts a new map; the same session adds the file. */
  function Step(st: ScanState, r: ImageFileRow): ScanState {
    var evalDict := if st.tmpSession != Some(r.session) then map[r.scanType := [r.imagefile]]
                    else AddFile(st.evalDict, r.scanType, r.imagefile);
    var written := if st.tmpSession != Some(r.session) && st.line.Some? then st.written + [Line(st.line.value)]
                   else st.written;
    ScanState(Some(r.session), Some(SessionLine(r.project, r.subject, r.session, evalDict)), evalDict, written)
  }

  /** The state after the header is written and the given rows are scanned. */
  function Scan(rows: seq<ImageFileRow>): ScanState {
    if rows == [] then ScanState(None, None, map[], [HeaderRow])
    else Step(Scan(rows[..|rows| - 1]), rows[|rows| - 1])
  }

  /** The scan holds the last group and has written the header and every earlier group. */
  lemma {:induction false} ScanGroups(rows: seq<ImageFileRow>)
    ensures var st, gs := Scan(rows), Groups(rows);
      && (st.line.None? <==> rows == [])
      && (st.tmpSession.None? <==> rows == [])
      && (rows != [] ==> st.line == Some(gs[|gs| - 1]) && st.evalDict == gs[|gs| - 1].files &&
                         st.tmpSession == Some(gs[|gs| - 1].session))
      && st.written == [HeaderRow] + Lines(AllButLast(gs))
  {
    if rows != [] {
      var front, r := rows[..|rows| - 1], rows[|rows| - 1];
      assert rows == front + [r];
      ScanGroups(front);
      GroupsStep(front, r);
      var gs := Groups(front);
      if gs != [] && gs[|gs| - 1].session != r.session {
        LinesSnoc(AllButLast(gs), gs[|gs| - 1]);
        assert gs == AllButLast(gs) + [gs[|gs| - 1]];
      }
    }
  }

  // ---------------------------------------------------------------------
  // The scan as written, and with the final flush
  // ---------------------------------------------------------------------

  /** The loop of `printInfoToCSVfile`: after it, the state is `Scan(imagefileInfo)`. */
  method ScanRows(imagefileInfo: seq<ImageFileRow>) returns (tmpSession: Option<string>, line: Option<SessionLine>,
                                                           evalDict: map<string, seq<string>>, written: seq<CsvRow>)
    ensures ScanState(tmpSession, line, evalDict, written) == Scan(imagefileInfo)
  {
    written := [HeaderRow];
    tmpSession := None;
    line := None;
    evalDict := map[];
    for i := 0 to |imagefileInfo|
      invariant ScanState(tmpSession, line, evalDict, written) == Scan(imagefileInfo[..i])
    {
      var row := imagefileInfo[i];
      var project, subject, session := row.project, row.subject, row.session;
      var scanType, imagefile := row.scanType, row.imagefile;
      assert imagefileInfo[..i + 1][..i] == imagefileInfo[..i];
      if tmpSession != Some(session) {
        evalDict := map[scanType := [imagefile]];
        if line.Some? {
          written := written + [Line(line.value)];
        }
      } else {
        if scanType in evalDict {
          evalDict := evalDict[scanType := evalDict[scanType] + [imagefile]];
        } else {
          evalDict := evalDict[scanType := [imagefile]];
        }
      }
      tmpSession := Some(session);
      line := Some(SessionLine(project, subject, session, evalDict));
    }
    assert imagefileInfo[..|imagefileInfo|] == imagefileInfo;
  }

  /**
    * `printInfoToCSVfile` as written: the header, then the line of every
    * group except the last one.
    */
  method PrintInfoToCSVfile(imagefileInfo: seq<ImageFileRow>) returns (written: seq<CsvRow>)
    ensures written == [HeaderRow] + Lines(AllButLast(Groups(imagefileInfo)))
  {
    var _, _, _, w := ScanRows(imagefileInfo);
    ScanGroups(imagefileInfo);
    written := w;
  }

  /** The scan with the last group written once the rows run out: one line per group. */
  method PrintInfoToCSVfileFlushed(imagefileInfo: seq<ImageFileRow>) returns (written: seq<CsvRow>)
    ensures written == [HeaderRow] + Lines(Groups(imagefileInfo))
  {
    var _, line, _, w := ScanRows(imagefileInfo);
    ScanGroups(imagefileInfo);
    written := w;
    if line.Some? {
      var gs := Groups(imagefileInfo);
      assert gs == AllButLast(gs) + [line.value];
      LinesSnoc(AllButLast(gs), line.value);
      written := written + [Line(line.value)];
    }
  }

  // ---------------------------------------------------------------------
  // What the output holds
  // ---------------------------------------------------------------------

  /** Two consecutive lines never share a session: a session's rows form one line. */
  lemma AdjacentGroupsDiffer(rows: seq<ImageFileRow>)
    ensures forall j, k :: 0 <= j < |Groups(rows)| && k == j + 1 && k < |Groups(rows)| ==>
                           Groups(rows)[j].session != Groups(rows)[k].session
  {
    GroupsAreRuns(rows);
    RunsOneSession(rows);
    RunsAdjacent(rows);
    var rs := Runs(rows);
    forall j, k | 0 <= j < |rs| && k == j + 1 && k < |rs|
      ensures GroupOf(rs[j]).session != GroupOf(rs[k]).session
    {
      assert rs[j][|rs[j]| - 1].session == rs[j][0].session;
      assert rs[k][|rs[k]| - 1].session == rs[k][0].session;
    }
  }

  /** Rows of a single session make a single group. */
  lemma {:induction false} OneSessionOneGroup(rows: seq<ImageFileRow>)
    requires rows != [] && OneSession(rows)
    ensures |Groups(rows)| == 1
  {
    if |rows| > 1 {
      var front, r := rows[..|rows| - 1], rows[|rows| - 1];
      assert OneSession(front) by {
        forall i | 0 <= i < |front| ensures front[i].session == front[0].session {
          assert front[i] == rows[i];
        }
      }
      OneSessionOneGroup(front);
      assert front[|front| - 1].session == r.session by {
        assert front[|front| - 1] == rows[|rows| - 2];
      }
      var gs := Groups(front);
      assert gs[|gs| - 1].session == r.session;
      SameGroup(front, r);
      assert rows == front + [r];
    }
  }

  /**
    * As written, the output has one row per group, header included: the
    * last group's line is missing, and the flushed scan differs exactly by it.
    */
  lemma LastGroupDropped(rows: seq<ImageFileRow>)
    requires rows != []
    ensures |[HeaderRow] + Lines(AllButLast(Groups(rows)))| == |Groups(rows)|
    ensures [HeaderRow] + Lines(Groups(rows)) ==
            [HeaderRow] + Lines(AllButLast(Groups(rows))) + [Line(Groups(rows)[|Groups(rows)| - 1])]
  {
    var gs := Groups(rows);
    assert gs == AllButLast(gs) + [gs[|gs| - 1]];
    LinesSnoc(AllButLast(gs), gs[|gs| - 1]);
  }

  /** When every row has the same session, the file as written holds only the column titles. */
  lemma OneSessionWritesHeaderOnly(rows: seq<ImageFileRow>)
    requires rows != [] && OneSession(rows)
    ensures [HeaderRow] + Lines(AllButLast(Groups(rows))) == [HeaderRow]
    ensures |[HeaderRow] + Lines(Groups(rows))| == 2
  {
    OneSessionOneGroup(rows);
  }

  /**
    * Three rows of session `a` (two of scan type `x`, one of `y`) and one of
    * session `b`: the flushed file holds one line per session, with `a`'s
    * files grouped by scan type in row order; as written, `b`'s line is lost.
    */
  lemma TwoSessionsExample(project: string, subject: string, a: string, b: string,
                           x: string, y: string, z: string, f1: string, f2: string, f3: string, f4: string)
    requires a != b && x != y
    ensures var score := "9";
      var rows := [ImageFileRow(project, subject, a, score, x, f1), ImageFileRow(project, subject, a, score, x, f2),
                   ImageFileRow(project, subject, a, score, y, f3), ImageFileRow(project, subject, b, score, z, f4)];
      var lineA := SessionLine(project, subject, a, map[x := [f1, f2], y := [f3]]);
      var lineB := SessionLine(project, subject, b, map[z := [f4]]);
      && [HeaderRow] + Lines(Groups(rows)) == [HeaderRow, Line(lineA), Line(lineB)]
      && [HeaderRow] + Lines(AllButLast(Groups(rows))) == [HeaderRow, Line(lineA)]
  {
    var score := "9";
    var r1, r2 := ImageFileRow(project, subject, a, score, x, f1), ImageFileRow(project, subject, a, score, x, f2);
    var r3, r4 := ImageFileRow(project, subject, a, score, y, f3), ImageFileRow(project, subject, b, score, z, f4);
    var lineA := SessionLine(project, subject, a, map[x := [f1, f2], y := [f3]]);
    var lineB := SessionLine(project, subject, b, map[z := [f4]]);
    var s1 := [] + [r1];
    NewGroup([], r1);
    var s2 := s1 + [r2];
    SameGroup(s1, r2);
    assert AddFile(map[x := [f1]], x, f2) == map[x := [f1, f2]] by {
      assert [f1] + [f2] == [f1, f2];
    }
    var s3 := s2 + [r3];
    SameGroup(s2, r3);
    assert AddFile(map[x := [f1, f2]], y, f3) == map[x := [f1, f2], y := [f3]];
    var s4 := s3 + [r4];
    NewGroup(s3, r4);
    assert Groups(s4) == [lineA, lineB];
    assert s4 == [r1, r2, r3, r4];
    LinesSnoc([lineA], lineB);
    LinesSnoc([], lineA);
  }
}
