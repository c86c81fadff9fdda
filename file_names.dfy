/**
  * The file and listing names both scripts take apart or build: the image
  * file name an evaluation refers to (subject and scan type), the lines of
  * the experiment listing, the fields of one listing line, and the
  * `Project-Subject-ID-Label.xml` name the downloading script saves each
  * evaluation under and later reads the subject ID back from.
  */
module FileNames {
  import opened Wrappers
  import opened Text

  const NotFound := "NOT_FOUND"

  // ---------------------------------------------------------------------
  // Image file names: '([^_]*)_[^_]*_([^_]*)_[^-]*'
  // ---------------------------------------------------------------------

  /**
    * `re.match('([^_]*)_[^_]*_([^_]*)_[^-]*', f)` succeeds with groups `g1`
    * and `g2` exactly when `f` is `g1_mid_g2_rest` with no underscore in
    * `g1`, `mid` or `g2`: the match is anchored at the start only, and the
    * trailing `[^-]*` may match nothing.
    */
  predicate ImagePatternMatch(f: string, g1: string, mid: string, g2: string, rest: string) {
    '_' !in g1 && '_' !in mid && '_' !in g2 && f == g1 + "_" + mid + "_" + g2 + "_" + rest
  }

  /** The two groups of the image file pattern, read off the underscore-separated parts. */
  function MatchImageFile(f: string): Option<(string, string)> {
    var parts := Split(f, '_');
    if |parts| >= 4 then Some((parts[0], parts[2])) else None
  }

  /**
    * The image file pattern matches exactly when the name has at least four
    * underscore-separated parts (three underscores), and then its groups are
    * the first and the third part, whichever way the name is decomposed.
    */
  lemma MatchImageFileIsPattern(f: string)
    ensures MatchImageFile(f).Some? <==>
      exists g1, mid, g2, rest :: ImagePatternMatch(f, g1, mid, g2, rest)
    ensures forall g1, mid, g2, rest :: ImagePatternMatch(f, g1, mid, g2, rest) ==>
      MatchImageFile(f) == Some((g1, g2))
  {
    var parts := Split(f, '_');
    if |parts| >= 4 {
      var rest := Join(parts[3..], '_');
      assert parts[0] in parts && parts[1] in parts && parts[2] in parts;
      assert Join(parts[2..], '_') == parts[2] + "_" + rest by {
        assert parts[2..][1..] == parts[3..];
      }
      assert Join(parts[1..], '_') == parts[1] + "_" + Join(parts[2..], '_') by {
        assert parts[1..][1..] == parts[2..];
      }
      assert ImagePatternMatch(f, parts[0], parts[1], parts[2], rest);
    }
    forall g1, mid, g2, rest | ImagePatternMatch(f, g1, mid, g2, rest)
      ensures MatchImageFile(f) == Some((g1, g2))
    {
      SplitThreeParts(g1, mid, g2, rest, '_');
    }
  }

  /**
    * `FindSessionAndScanType` / `_findSessionAndScanType`: the subject and
    * the scan type named by the last `/` component of the stripped path, or
    * `NOT_FOUND` twice when the pattern does not match; it never raises.
    */
  function FindSessionAndScanType(imageDir: string): (string, string) {
    FileGroups(LastPathComponent(imageDir))
  }

  /** The last `/` component of the stripped path. */
  function LastPathComponent(imageDir: string): string {
    var components := Split(Strip(imageDir), '/');
    components[|components| - 1]
  }

  /** The two pattern groups of a file name, or `NOT_FOUND` twice. */
  function FileGroups(imageFile: string): (string, string) {
    match MatchImageFile(imageFile)
    case Some(groups) => groups
    case None => (NotFound, NotFound)
  }

  /**
    * For a path `dir/file` with no surrounding whitespace, the directory is
    * ignored: the result is the first and third `_` part of `file`, or
    * `NOT_FOUND` twice when `file` has fewer than three underscores.
    */
  lemma FindSessionAndScanTypeOfPath(dir: string, file: string)
    requires '/' !in file
    requires !IsWhitespace((dir + "/" + file)[0])
    requires file == [] || !IsWhitespace(file[|file| - 1])
    ensures var parts := Split(file, '_');
      FindSessionAndScanType(dir + "/" + file) ==
        if |parts| >= 4 then (parts[0], parts[2]) else (NotFound, NotFound)
  {
    PathLastComponent(dir, file);
    LastComponent(dir + "/" + file, file);
  }

  /** The last component of `dir/file` with no surrounding whitespace is `file`. */
  lemma PathLastComponent(dir: string, file: string)
    requires '/' !in file
    requires !IsWhitespace((dir + "/" + file)[0])
    requires file == [] || !IsWhitespace(file[|file| - 1])
    ensures LastPathComponent(dir + "/" + file) == file
  {
    var path := dir + "/" + file;
    assert path[|path| - 1] == (if file == [] then '/' else file[|file| - 1]);
    StripUnchanged(path);
    assert path == dir + ['/'] + file;
    SplitLastPart(dir, file, '/');
  }

  /** A bare file name with no surrounding whitespace is taken apart at its underscores. */
  lemma FindSessionAndScanTypeOfName(file: string)
    requires '/' !in file
    requires file == [] || (!IsWhitespace(file[0]) && !IsWhitespace(file[|file| - 1]))
    ensures var parts := Split(file, '_');
      FindSessionAndScanType(file) ==
        if |parts| >= 4 then (parts[0], parts[2]) else (NotFound, NotFound)
  {
    StripUnchanged(file);
    SplitNone(file, '/');
    assert LastPathComponent(file) == file;
    LastComponent(file, file);
  }

  /** The result depends on the last `/` component of the stripped path only. */
  lemma LastComponent(imageDir: string, file: string)
    requires LastPathComponent(imageDir) == file
    ensures var parts := Split(file, '_');
      FindSessionAndScanType(imageDir) ==
        if |parts| >= 4 then (parts[0], parts[2]) else (NotFound, NotFound)
  {
    FileGroupsOfParts(file);
  }

  /** The groups of a file name, read off its underscore-separated parts. */
  lemma FileGroupsOfParts(file: string)
    ensures var parts := Split(file, '_');
      FileGroups(file) == if |parts| >= 4 then (parts[0], parts[2]) else (NotFound, NotFound)
  {
  }

  /** `S1_2_T1-30_x` names subject `S1` and scan type `T1-30`. */
  lemma ScanTypeExample(f: string)
    requires f == "S1_2_T1-30_x"
    ensures FindSessionAndScanType(f) == ("S1", "T1-30")
  {
    assert f == "S1" + "_" + "2" + "_" + "T1-30" + "_" + "x";
    ImageNameGroups("S1", "2", "T1-30", "x");
  }

  /**
    * A bare name `g1_mid_g2_rest` with no `/`, no surrounding whitespace and
    * no underscore in `g1`, `mid` or `g2` names subject `g1` and scan type `g2`.
    */
  lemma ImageNameGroups(g1: string, mid: string, g2: string, rest: string)
    requires '_' !in g1 && '_' !in mid && '_' !in g2
    requires '/' !in g1 && '/' !in mid && '/' !in g2 && '/' !in rest
    requires g1 != [] && !IsWhitespace(g1[0])
    requires rest != [] && !IsWhitespace(rest[|rest| - 1])
    ensures FindSessionAndScanType(g1 + "_" + mid + "_" + g2 + "_" + rest) == (g1, g2)
  {
    var f := g1 + "_" + mid + "_" + g2 + "_" + rest;
    assert f == g1 + ['_'] + mid + ['_'] + g2 + ['_'] + rest;
    SplitThreeParts(g1, mid, g2, rest, '_');
    assert f[0] == g1[0] && f[|f| - 1] == rest[|rest| - 1];
    assert '/' !in f;
    FindSessionAndScanTypeOfName(f);
  }

  /** A name without underscores, such as the seed `NA`, gives `NOT_FOUND` twice. */
  lemma NoUnderscoreNotFound(file: string)
    requires '/' !in file && '_' !in file
    requires file == [] || (!IsWhitespace(file[0]) && !IsWhitespace(file[|file| - 1]))
    ensures FindSessionAndScanType(file) == (NotFound, NotFound)
  {
    FindSessionAndScanTypeOfName(file);
    SplitNone(file, '_');
  }

  // ---------------------------------------------------------------------
  // The experiment listing
  // ---------------------------------------------------------------------

  /** The listing text once stripped and rid of its double quotes. */
  function CleanListing(text: string): string {
    RemoveChar(Strip(text), '"')
  }

  /**
    * `ExpString.strip().replace("\"", "").split('\n')[1:]`: the lines of the
    * listing after its header line.
    */
  function ListingLines(text: string): seq<string> {
    Split(CleanListing(text), '\n')[1..]
  }

  /**
    * No listing line holds a double quote or a line break, there is one line
    * per line break of the cleaned text, and some header line followed by the
    * lines, joined by line breaks, is the cleaned text.
    */
  lemma ListingLinesShape(text: string)
    ensures forall l :: l in ListingLines(text) ==> '"' !in l && '\n' !in l
    ensures |ListingLines(text)| == Count(CleanListing(text), '\n')
    ensures exists header ::
      '\n' !in header && Join([header] + ListingLines(text), '\n') == CleanListing(text)
  {
    var cleaned := CleanListing(text);
    var all := Split(cleaned, '\n');
    RemoveCharSpec(Strip(text), '"');
    SplitLacks(cleaned, '\n', '"');
    assert forall l :: l in all[1..] ==> l in all;
    SplitLength(cleaned, '\n');
    assert all[0] in all;
    assert [all[0]] + all[1..] == all;
  }

  /**
    * A listing made of a header and lines, with no double quotes, no line
    * break inside a line and no surrounding whitespace, gives back exactly
    * its lines: only the header is dropped.
    */
  lemma ListingRoundTrip(header: string, lines: seq<string>)
    requires forall l :: l in [header] + lines ==> '"' !in l && '\n' !in l
    requires var text := Join([header] + lines, '\n');
      text != [] && !IsWhitespace(text[0]) && !IsWhitespace(text[|text| - 1])
    ensures ListingLines(Join([header] + lines, '\n')) == lines
  {
    var parts := [header] + lines;
    var text := Join(parts, '\n');
    StripUnchanged(text);
    JoinLacks(parts, '\n', '"');
    RemoveAbsent(text, '"');
    SplitJoin(parts, '\n');
    assert parts[1..] == lines;
  }

  // ---------------------------------------------------------------------
  // One listing line: ID, Label, xnatSubjectID, Project, URI
  // ---------------------------------------------------------------------

  /** `line.strip().split(',')`. */
  function LineFields(line: string): seq<string> {
    Split(Strip(line), ',')
  }

  /**
    * `_getScanInfo(line)`: the subject ID (field 2) and the URI (field 4), or
    * the index that raises `IndexError` when the line has too few fields.
    */
  function GetScanInfo(line: string): (r: Result<(string, string), nat>)
    ensures r.Failure? <==> |LineFields(line)| < 5
    ensures r.Failure? ==> r.error == (if |LineFields(line)| <= 2 then 2 else 4)
    ensures r.Success? ==> r.value == (LineFields(line)[2], LineFields(line)[4])
  {
    var fields := LineFields(line);
    if |fields| <= 2 then Failure(2)
    else if |fields| <= 4 then Failure(4)
    else Success((fields[2], fields[4]))
  }

  /**
    * Reading back a line written from comma-free fields with no surrounding
    * whitespace gives its third and fifth fields.
    */
  lemma GetScanInfoRoundTrip(fields: seq<string>)
    requires |fields| >= 5
    requires forall f :: f in fields ==> ',' !in f
    requires var line := Join(fields, ',');
      line != [] && !IsWhitespace(line[0]) && !IsWhitespace(line[|line| - 1])
    ensures GetScanInfo(Join(fields, ',')) == Success((fields[2], fields[4]))
  {
    StripUnchanged(Join(fields, ','));
    SplitJoin(fields, ',');
  }

  /** `"{0}-{1}-{2}-{3}.xml".format(Project, xnatSubjectID, ID, Label)`. */
  function XmlFileName(project: string, subjectID: string, id: string, reviewLabel: string): string {
    project + "-" + subjectID + "-" + id + "-" + reviewLabel + ".xml"
  }

  /**
    * The name the downloading script saves a listing line's evaluation
    * under, or the index that raises `IndexError`: it reads fields 0 to 4
    * in order.
    */
  function SavedXmlFileName(line: string): (r: Result<string, nat>)
    ensures r.Failure? <==> |LineFields(line)| < 5
    ensures r.Failure? ==> r.error == |LineFields(line)|
    ensures r.Success? ==> var fields := LineFields(line);
      r.value == XmlFileName(fields[3], fields[2], fields[0], fields[1])
  {
    var fields := LineFields(line);
    if |fields| < 5 then Failure(|fields|)
    else Success(XmlFileName(fields[3], fields[2], fields[0], fields[1]))
  }

  // ---------------------------------------------------------------------
  // Saved XML file names: '([^-]*)-([^-]*)-([^-]*)-([^-]*).xml.*'
  // ---------------------------------------------------------------------

  /**
    * `re.match('([^-]*)-([^-]*)-([^-]*)-([^-]*).xml.*', f)` succeeds with
    * groups `g1` to `g4` exactly when `f` is `g1-g2-g3-g4`, then any
    * character but a line break (the unescaped `.`), then `xml`, then
    * anything: the match is anchored at the start only.
    */
  predicate XmlPatternMatch(f: string, g1: string, g2: string, g3: string, g4: string, dot: char, rest: string) {
    && '-' !in g1 && '-' !in g2 && '-' !in g3 && '-' !in g4 && dot != '\n'
    && f == g1 + "-" + g2 + "-" + g3 + "-" + g4 + [dot] + "xml" + rest
  }

  /** The text after the third dash, when there is one. */
  function AfterThirdDash(parts: seq<string>): string
    requires |parts| >= 4
  {
    Join(parts[3..], '-')
  }

  /** Some dash-free start of the fourth part is followed by any character but `\n` and `xml`. */
  predicate FourthGroupFits(parts: seq<string>)
    requires |parts| >= 4
  {
    var tail := AfterThirdDash(parts);
    exists k :: 0 <= k <= |parts[3]| && k + 4 <= |tail| && tail[k] != '\n' && tail[k + 1..k + 4] == "xml"
  }

  /**
    * Group 2 of the saved-file-name pattern (the subject ID), or `None` when
    * the pattern does not match.
    */
  function MatchXmlFileName(f: string): Option<string> {
    var parts := Split(f, '-');
    if |parts| >= 4 && FourthGroupFits(parts) then Some(parts[1]) else None
  }

  /**
    * `MatchXmlFileName` is the pattern: it finds a group 2 exactly when the
    * pattern matches, and every way of matching has that group 2.
    */
  lemma MatchXmlFileNameIsPattern(f: string)
    ensures MatchXmlFileName(f).Some? <==>
      exists g1, g2, g3, g4, dot, rest :: XmlPatternMatch(f, g1, g2, g3, g4, dot, rest)
    ensures forall g1, g2, g3, g4, dot, rest :: XmlPatternMatch(f, g1, g2, g3, g4, dot, rest) ==>
      MatchXmlFileName(f) == Some(g2)
  {
    var parts := Split(f, '-');
    if |parts| >= 4 && FourthGroupFits(parts) {
      var tail := AfterThirdDash(parts);
      var k :| 0 <= k <= |parts[3]| && k + 4 <= |tail| && tail[k] != '\n' && tail[k + 1..k + 4] == "xml";
      XmlMatchFromParts(f, k);
    }
    forall g1, g2, g3, g4, dot, rest | XmlPatternMatch(f, g1, g2, g3, g4, dot, rest)
      ensures MatchXmlFileName(f) == Some(g2)
    {
      XmlPartsFromMatch(f, g1, g2, g3, g4, dot, rest);
    }
  }

  /** The text after the third dash starts with the fourth part. */
  lemma AfterThirdDashStarts(parts: seq<string>)
    requires |parts| >= 4
    ensures |parts[3]| <= |AfterThirdDash(parts)|
    ensures AfterThirdDash(parts)[..|parts[3]|] == parts[3]
  {
    var rest := parts[3..];
    if |rest| > 1 {
      assert Join(rest, '-') == rest[0] + ['-'] + Join(rest[1..], '-');
    }
  }

  /** The joined parts are the first three parts, dash-separated, then the text after the third dash. */
  lemma JoinFirstThree(parts: seq<string>)
    requires |parts| >= 4
    ensures Join(parts, '-') == parts[0] + "-" + parts[1] + "-" + parts[2] + "-" + AfterThirdDash(parts)
  {
    var p1, p2 := parts[1..], parts[2..];
    assert p1[1..] == p2;
    assert p2[1..] == parts[3..];
    var j3 := AfterThirdDash(parts);
    JoinStep(p2, '-');
    var j2 := parts[2] + "-" + j3;
    assert Join(p2, '-') == j2;
    JoinStep(p1, '-');
    var j1 := parts[1] + "-" + j2;
    assert Join(p1, '-') == j1;
    JoinStep(parts, '-');
    assert Join(parts, '-') == parts[0] + "-" + j1;
    DashReassociate(parts[0], parts[1], parts[2], j3);
  }

  /** Dash-joined text regrouped from the right to the left. */
  lemma DashReassociate(a: string, b: string, c: string, d: string)
    ensures a + "-" + (b + "-" + (c + "-" + d)) == a + "-" + b + "-" + c + "-" + d
  {
  }

  /** A join of two or more parts is the first part, the separator, then the join of the rest. */
  lemma JoinStep(parts: seq<string>, sep: char)
    requires |parts| >= 2
    ensures Join(parts, sep) == parts[0] + [sep] + Join(parts[1..], sep)
  {
  }

  /** A fitting fourth group gives a decomposition that matches the pattern. */
  lemma XmlMatchFromParts(f: string, k: nat)
    requires |Split(f, '-')| >= 4
    requires var parts := Split(f, '-');
      var tail := AfterThirdDash(parts);
      k <= |parts[3]| && k + 4 <= |tail| && tail[k] != '\n' && tail[k + 1..k + 4] == "xml"
    ensures var parts := Split(f, '-');
      var tail := AfterThirdDash(parts);
      XmlPatternMatch(f, parts[0], parts[1], parts[2], tail[..k], tail[k], tail[k + 4..])
  {
    var parts := Split(f, '-');
    var tail := AfterThirdDash(parts);
    assert parts[0] in parts && parts[1] in parts && parts[2] in parts && parts[3] in parts;
    AfterThirdDashStarts(parts);
    assert tail[..k] == parts[3][..k];
    assert '-' !in tail[..k] by {
      forall i | 0 <= i < k ensures tail[..k][i] != '-' {
        assert tail[..k][i] == parts[3][i];
      }
    }
    var g4, rest := tail[..k], tail[k + 4..];
    assert tail == g4 + [tail[k]] + "xml" + rest;
    JoinFirstThree(parts);
    var front := parts[0] + "-" + parts[1] + "-" + parts[2] + "-";
    assert f == front + tail;
    TailReassociate(front, g4, tail[k], rest);
  }

  /** The text after the third dash, taken apart around the extension, regrouped. */
  lemma TailReassociate(front: string, g4: string, dot: char, rest: string)
    ensures front + (g4 + [dot] + "xml" + rest) == front + g4 + [dot] + "xml" + rest
  {
  }

  /** A decomposition that matches the pattern fixes the first three dash-separated parts. */
  lemma XmlPartsFromMatch(f: string, g1: string, g2: string, g3: string, g4: string, dot: char, rest: string)
    requires XmlPatternMatch(f, g1, g2, g3, g4, dot, rest)
    ensures MatchXmlFileName(f) == Some(g2)
  {
    var v := [dot] + "xml" + rest;
    var u := g4 + v;
    assert f == g1 + "-" + g2 + "-" + g3 + "-" + u;
    SplitThreeParts(g1, g2, g3, u, '-');
    var parts := Split(f, '-');
    assert parts == [g1, g2, g3] + Split(u, '-');
    assert parts[3..] == Split(u, '-');
    SplitPrefix(g4, v, '-');
    assert parts[3] == g4 + Split(v, '-')[0];
    assert AfterThirdDash(parts) == u;
    var k := |g4|;
    assert u[k] == dot && u[k + 1..k + 4] == "xml";
  }

  /**
    * Reading the subject ID back from a saved name: with a dash-free project,
    * subject ID, evaluation ID and label, group 2 is the subject ID.
    */
  lemma XmlFileNameRoundTrip(project: string, subjectID: string, id: string, reviewLabel: string)
    requires '-' !in project && '-' !in subjectID && '-' !in id && '-' !in reviewLabel
    ensures MatchXmlFileName(XmlFileName(project, subjectID, id, reviewLabel)) == Some(subjectID)
  {
    var f := XmlFileName(project, subjectID, id, reviewLabel);
    assert f == project + "-" + subjectID + "-" + id + "-" + reviewLabel + ['.'] + "xml" + [];
    assert XmlPatternMatch(f, project, subjectID, id, reviewLabel, '.', []);
    XmlPartsFromMatch(f, project, subjectID, id, reviewLabel, '.', []);
  }

  /**
    * With a dash-free project and subject ID, the subject read back is never
    * a wrong one: it is the subject ID or nothing, whatever the ID and reviewLabel.
    */
  lemma XmlFileNameNeverWrongSubject(project: string, subjectID: string, id: string, reviewLabel: string)
    requires '-' !in project && '-' !in subjectID
    ensures MatchXmlFileName(XmlFileName(project, subjectID, id, reviewLabel)) in {None, Some(subjectID)}
  {
    var f := XmlFileName(project, subjectID, id, reviewLabel);
    var u := id + "-" + reviewLabel + ".xml";
    assert f == project + "-" + subjectID + "-" + u;
    var parts := Split(f, '-');
    var tailParts := Split(u, '-');
    assert f == project + "-" + (subjectID + "-" + u);
    SplitAfterPart(project, subjectID + "-" + u, '-');
    SplitAfterPart(subjectID, u, '-');
    assert parts == [project, subjectID] + tailParts;
  }

  /**
    * A label with a dash in it, such as `a-b`, makes the pattern fail when
    * no `x` comes before the extension: the subject ID is then not read back.
    */
  lemma DashedLabelFails(project: string, subjectID: string, id: string, a: string, b: string)
    requires '-' !in project && '-' !in subjectID && '-' !in id && '-' !in a
    requires 'x' !in a && 'x' !in b
    ensures MatchXmlFileName(XmlFileName(project, subjectID, id, a + "-" + b)) == None
  {
    var f := XmlFileName(project, subjectID, id, a + "-" + b);
    var u := a + "-" + (b + ".xml");
    assert f == project + "-" + subjectID + "-" + id + "-" + u;
    SplitThreeParts(project, subjectID, id, u, '-');
    SplitAfterPart(a, b + ".xml", '-');
    var parts := Split(f, '-');
    assert parts[3..] == Split(u, '-');
    assert parts[3] == a;
    var tail := AfterThirdDash(parts);
    assert tail == u;
    forall k | 0 <= k <= |a| && k + 4 <= |tail|
      ensures tail[k] == '\n' || tail[k + 1..k + 4] != "xml"
    {
      assert tail[k + 1..k + 4][0] == tail[k + 1];
      if k + 1 < |a| {
        assert tail[k + 1] == a[k + 1];
      } else if k + 1 == |a| {
        assert tail[k + 1] == '-';
      } else {
        assert tail[k + 1] == (b + ".xml")[0];
      }
    }
  }

  /**
    * `os.path.splitext(f)[1] == ".xml"`: the name ends in `.xml` and the
    * part of its last `/` component before that dot is not made of dots only.
    */
  predicate HasXmlExtension(f: string) {
    var name := BaseName(f);
    |name| >= 4 && name[|name| - 4..] == ".xml" && !AllDots(name[..|name| - 4])
  }

  /** The text after the last `/` of `f` (all of `f` when it has none). */
  function BaseName(f: string): string {
    if f == [] || f[|f| - 1] == '/' then [] else BaseName(f[..|f| - 1]) + [f[|f| - 1]]
  }

  /** `s` is made of dots only. */
  predicate AllDots(s: string) {
    s == [] || (s[|s| - 1] == '.' && AllDots(s[..|s| - 1]))
  }

  /** A name without `/` is its own last component. */
  lemma {:induction false} BaseNameNoSlash(f: string)
    requires '/' !in f
    ensures BaseName(f) == f
  {
    if f != [] {
      var init := f[..|f| - 1];
      assert '/' !in init by {
        forall i | 0 <= i < |init| ensures init[i] != '/' {
          assert init[i] == f[i];
        }
      }
      BaseNameNoSlash(init);
      assert init + [f[|f| - 1]] == f;
    }
  }

  /** A text with a character other than a dot is not made of dots only. */
  lemma {:induction false} NotAllDots(s: string, k: nat)
    requires k < |s| && s[k] != '.'
    ensures !AllDots(s)
  {
    if k < |s| - 1 {
      NotAllDots(s[..|s| - 1], k);
    }
  }

  /** Every saved name passes the extension test of the reading loop. */
  lemma XmlFileNameHasExtension(project: string, subjectID: string, id: string, reviewLabel: string)
    requires '/' !in project && '/' !in subjectID && '/' !in id && '/' !in reviewLabel
    ensures HasXmlExtension(XmlFileName(project, subjectID, id, reviewLabel))
  {
    var f := XmlFileName(project, subjectID, id, reviewLabel);
    assert '/' !in f by {
      assert f == project + "-" + subjectID + "-" + id + "-" + reviewLabel + ".xml";
    }
    BaseNameNoSlash(f);
    assert f[|f| - 4..] == ".xml";
    NotAllDots(f[..|f| - 4], |project|);
  }
}
