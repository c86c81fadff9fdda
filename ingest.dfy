/**
  * Filling the `ImageEval` table: one row per evaluation, built from the
  * record `ParseToFields` reads, overlaid with the columns each script adds,
  * turned into an `INSERT` statement, executed and committed.  The listing
  * script (`createImageEvalDB.py`) fetches each evaluation named in the
  * experiment listing; the downloading script
  * (`createImageEvalDB_downloadXMLfiles.py`) reads every `.xml` file of its
  * download directory and recovers the subject ID from the file name.
  */
module Ingest {
  import opened Wrappers
  import opened Text
  import opened FieldRecords
  import opened FileNames
  import opened SqlInsert

  /** A row of the table: column name to text. */
  type Row = map<string, string>

  /** What makes one evaluation abort the whole fill. */
  datatype IngestError =
    | BadListingLine(index: nat)      // `IndexError` in `_getScanInfo`: the field index that is missing
    | Unparsable(error: ParseError)   // `KeyError` raised by `ParseToFields`
    | MissingText                     // `AttributeError`: a date, time or series number element had no text
    | RejectedStatement               // SQLite cannot read the statement back
    | NonAsciiText                    // `UnicodeEncodeError` in the listing script's `str.format`

  /** Every column name of `m` can be read back from a statement. */
  ghost predicate Plain(m: Row) {
    forall c :: c in m ==> PlainColumn(c)
  }

  /** `row` is what the table holds for `record`: the record itself whenever its column names are plain. */
  ghost predicate Stored(row: Row, record: Row) {
    Plain(record) ==> row == record
  }

  // ---------------------------------------------------------------------
  // The database
  // ---------------------------------------------------------------------

  /**
    * The `ImageEval` table of the SQLite file: the rows executed so far and
    * the rows as of the last commit.  A statement is read back with
    * `ParseInsert`, which stands for SQLite's parser.
    */
  class ImageEvalDB {
    var rows: seq<Row>
    var committed: seq<Row>

    constructor ()
      ensures rows == [] && committed == []
    {
      rows, committed := [], [];
    }

    /** `createDataBase`: the old file is removed and an empty table created. */
    method CreateDataBase()
      modifies this
      ensures rows == [] && committed == []
    {
      rows, committed := [], [];
    }

    /** `dbCur.execute(command)`: an insert adds the row it names; anything else is refused. */
    method Execute(command: string) returns (ok: bool)
      modifies this
      ensures ok <==> ParseInsert(command).Some?
      ensures ok ==> rows == old(rows) + [Zip(ParseInsert(command).value.0, ParseInsert(command).value.1)]
      ensures !ok ==> rows == old(rows)
      ensures committed == old(committed)
    {
      var decoded := ParseInsert(command);
      ok := decoded.Some?;
      if ok {
        rows := rows + [Zip(decoded.value.0, decoded.value.1)];
      }
    }

    /** `con.commit()`: every executed row becomes durable. */
    method Commit()
      modifies this
      ensures committed == rows && rows == old(rows)
    {
      committed := rows;
    }
  }

  /** `EvalDict.keys()`: every key once, in an order the dictionary chooses. */
  method DictKeys(m: Row) returns (keys: seq<string>)
    ensures KeyOrder(keys, m)
  {
    keys := [];
    var rest := m.Keys;
    while rest != {}
      invariant rest <= m.Keys
      invariant forall k :: k in keys <==> k in m && k !in rest
      invariant forall i, j :: 0 <= i < j < |keys| ==> keys[i] != keys[j]
      decreases |rest|
    {
      var k :| k in rest;
      keys := keys + [k];
      rest := rest - {k};
    }
  }

  /**
    * The statement for `record`, executed and committed: the row the table
    * gains is the record when its column names are plain, and a refused
    * statement means they are not.
    */
  method InsertAndCommit(db: ImageEvalDB, record: Row) returns (ok: bool)
    modifies db
    ensures ok ==> |db.rows| == |old(db.rows)| + 1 && db.rows[..|old(db.rows)|] == old(db.rows)
    ensures ok ==> Stored(db.rows[|old(db.rows)|], record) && db.committed == db.rows
    ensures !ok ==> db.rows == old(db.rows) && db.committed == old(db.committed) && !Plain(record)
  {
    var keys := DictKeys(record);
    var command := GetSQLiteCommand(record, keys);
    ok := db.Execute(command);
    if Plain(record) {
      InsertStoresRecord(record, keys);
    }
    if ok {
      db.Commit();
    }
  }

  // ---------------------------------------------------------------------
  // The record of one evaluation
  // ---------------------------------------------------------------------

  /**
    * The parsed record overlaid with the subject and scan type of the image
    * file, the captured texts and the root attributes, and with
    * `xnatSubjectID` when one is known; `MissingText` when a date, time or
    * series number element had no text (the statement builder then calls
    * `replace` on `None`).
    */
  function AssembleRecord(p: Parsed, xnatSubjectID: Option<string>): Result<Row, IngestError>
    requires "imagefile" in p.fieldDict
  {
    if p.date.None? || p.time.None? || p.seriesNumber.None? then Failure(MissingText)
    else
      var (subject, scanType) := FindSessionAndScanType(p.fieldDict["imagefile"]);
      var d := Overlay(p.fieldDict, subject, scanType, p.date.value, p.time.value, p.project,
                       p.reviewLabel, p.imageReviewID, p.sessionLabel, p.seriesNumber.value);
      Success(if xnatSubjectID.Some? then d["xnatSubjectID" := xnatSubjectID.value] else d)
  }

  /** The columns both scripts write over the parsed record. */
  function Overlay(d: Row, subject: string, scanType: string, date: string, time: string, project: string,
                   reviewLabel: string, id: string, session: string, seriesNumber: string): Row
  {
    LateColumns(d["subject" := subject]["scantype" := scanType], date, time, project, reviewLabel, id, session,
                seriesNumber)
  }

  /** The overlay's columns after the subject and the scan type, in the order the scripts write them. */
  function LateColumns(d: Row, date: string, time: string, project: string, reviewLabel: string, id: string,
                       session: string, seriesNumber: string): Row
  {
    d["date" := date]["time" := time]["project" := project]["xnatImageReviewLabel" := reviewLabel]
     ["xnatImageReviewID" := id]["session" := session]["seriesnumber" := seriesNumber]
  }

  /**
    * Writing `xnatSubjectID` between the scan type and the later columns (the
    * listing script) or after the whole overlay (the downloading script)
    * gives the same row.
    */
  lemma SubjectIDCommutes(d: Row, subject: string, scanType: string, sid: string, date: string, time: string,
                          project: string, reviewLabel: string, id: string, session: string, seriesNumber: string)
    ensures LateColumns(d["subject" := subject]["scantype" := scanType]["xnatSubjectID" := sid],
                        date, time, project, reviewLabel, id, session, seriesNumber)
         == Overlay(d, subject, scanType, date, time, project, reviewLabel, id, session, seriesNumber)["xnatSubjectID" := sid]
  {
  }

  lemma ImageFileSeeded(doc: Document)
    requires Parse(doc).Success?
    ensures "imagefile" in Parse(doc).value.fieldDict
  {
    ParsedHasSeededColumns(doc);
    assert SeededColumns[11] == "imagefile";
  }

  /** The record of a parsed document, with the subject ID known from elsewhere, if any. */
  function RecordOf(doc: Document, xnatSubjectID: Option<string>): Result<Row, IngestError> {
    match Parse(doc)
    case Failure(e) => Failure(Unparsable(e))
    case Success(p) =>
      ImageFileSeeded(doc);
      AssembleRecord(p, xnatSubjectID)
  }

  /** The listing script's record for one listing line; `fetch` maps a URI to the document it serves. */
  function RecordForLine(line: string, fetch: string -> Document): Result<Row, IngestError> {
    match GetScanInfo(line)
    case Failure(index) => Failure(BadListingLine(index))
    case Success((subjectID, uri)) => ListingFormat(RecordOf(fetch(uri), Some(subjectID)))
  }

  /**
    * The listing script's statement builder formats each column name and
    * value into a byte string with `str.format`, which raises
    * `UnicodeEncodeError` for document text holding a character outside
    * ASCII.  The subject ID is a byte string read from the listing, and
    * formatting copies it unchanged.
    */
  predicate FormatsAsAscii(d: Row) {
    forall c :: c in d ==> IsAscii(c) && (c == "xnatSubjectID" || IsAscii(d[c]))
  }

  /** What becomes of a record in the listing script's statement builder. */
  function ListingFormat(record: Result<Row, IngestError>): Result<Row, IngestError> {
    if record.Success? && !FormatsAsAscii(record.value) then Failure(NonAsciiText) else record
  }

  lemma RecordOfParts(doc: Document, xnatSubjectID: Option<string>)
    requires Parse(doc).Success?
    ensures "imagefile" in Parse(doc).value.fieldDict
    ensures RecordOf(doc, xnatSubjectID) == AssembleRecord(Parse(doc).value, xnatSubjectID)
  {
    ImageFileSeeded(doc);
  }

  /** The downloading script's record for the file `name` holding `doc`. */
  function RecordForFile(name: string, doc: Document): Result<Row, IngestError> {
    RecordOf(doc, MatchXmlFileName(name))
  }

  // ---------------------------------------------------------------------
  // The fill loops
  // ---------------------------------------------------------------------

  /**
    * Inserting `records` one by one from `before`, stopping at the first
    * that cannot be stored, leaves `after` with one stored row per record
    * up to that one, and `r` names why it could not be stored.
    */
  ghost predicate Inserted(before: seq<Row>, after: seq<Row>, records: seq<Result<Row, IngestError>>,
                           r: Result<(), IngestError>)
  {
    && |before| <= |after|
    && after[..|before|] == before
    && StoredEach(after[|before|..], records)
    && (r.Success? <==> |after| == |before| + |records|)
    && (r.Failure? ==> Refused(records[|after| - |before|], r.error))
  }

  /** Row `k` of `added` is the stored form of record `k`, for every row added. */
  ghost predicate StoredEach(added: seq<Row>, records: seq<Result<Row, IngestError>>) {
    && |added| <= |records|
    && forall k :: 0 <= k < |added| ==> records[k].Success? && Stored(added[k], records[k].value)
  }

  /** Why `record` was not stored: its own error, or a statement SQLite cannot read. */
  ghost predicate Refused(record: Result<Row, IngestError>, e: IngestError) {
    if record.Failure? then e == record.error else e == RejectedStatement && !Plain(record.value)
  }

  /** The records the listing script builds, one per line. */
  function RecordsForLines(lines: seq<string>, fetch: string -> Document): (rs: seq<Result<Row, IngestError>>)
    ensures |rs| == |lines|
  {
    seq(|lines|, i requires 0 <= i < |lines| => RecordForLine(lines[i], fetch))
  }

  /** One evaluation stored, or the reason it could not be. */
  ghost predicate LoadedOne(before: seq<Row>, after: seq<Row>, record: Result<Row, IngestError>,
                            r: Result<(), IngestError>)
  {
    && (r.Success? ==> |after| == |before| + 1 && after[..|before|] == before &&
                       record.Success? && Stored(after[|before|], record.value))
    && (r.Failure? ==> after == before && Refused(record, r.error))
  }

  /**
    * Storing record `i` after the first `i` extends what they stored, and a
    * failure there is the outcome of the whole list.
    */
  lemma InsertedStep(before: seq<Row>, mid: seq<Row>, after: seq<Row>, records: seq<Result<Row, IngestError>>,
                     i: nat, r: Result<(), IngestError>)
    requires i < |records|
    requires Inserted(before, mid, records[..i], Success(()))
    requires LoadedOne(mid, after, records[i], r)
    ensures r.Success? ==> Inserted(before, after, records[..i + 1], r)
    ensures r.Failure? ==> Inserted(before, after, records, r)
  {
    var added := after[|before|..];
    assert mid[|before|..] == added[..i];
    assert forall k :: 0 <= k < i ==> records[..i][k] == records[k];
    if r.Success? {
      assert after[..|mid|] == mid;
      assert after[..|before|] == mid[..|before|];
      assert added[i] == after[|mid|];
      assert forall k :: 0 <= k < i + 1 ==> records[..i + 1][k] == records[k];
    }
  }

  /**
    * The body of `fillDBFromXMLs`' loop for one listing line: read the
    * subject ID and URI, fetch and parse the evaluation, overlay the extra
    * columns in the script's order, insert and commit.
    */
  method LoadLine(db: ImageEvalDB, line: string, fetch: string -> Document) returns (r: Result<(), IngestError>)
    modifies db
    ensures LoadedOne(old(db.rows), db.rows, RecordForLine(line, fetch), r)
    ensures r.Success? ==> db.committed == db.rows
    ensures r.Failure? ==> db.committed == old(db.committed)
  {
    var info := GetScanInfo(line);
    if info.Failure? {
      return Failure(BadListingLine(info.error));
    }
    var (subjectID, uri) := info.value;
    var doc := fetch(uri);
    var parsed := ParseToFields.FromXml(doc);
    if parsed.Failure? {
      return Failure(Unparsable(parsed.error));
    }
    var p := parsed.value;
    RecordOfParts(doc, Some(subjectID));
    // the record is overlaid on a copy: the object is dropped right after
    var dict := p.fieldDict;
    var (subject, scanType) := FindSessionAndScanType(dict["imagefile"]);
    dict := dict["subject" := subject];
    dict := dict["scantype" := scanType];
    dict := dict["xnatSubjectID" := subjectID];
    if p.date.None? || p.time.None? || p.seriesNumber.None? {
      return Failure(MissingText);
    }
    ghost var d1 := dict;
    dict := dict["date" := p.date.value];
    dict := dict["time" := p.time.value];
    dict := dict["project" := p.project];
    dict := dict["xnatImageReviewLabel" := p.reviewLabel];
    dict := dict["xnatImageReviewID" := p.imageReviewID];
    dict := dict["session" := p.sessionLabel];
    dict := dict["seriesnumber" := p.seriesNumber.value];
    assert dict == LateColumns(d1, p.date.value, p.time.value, p.project,
                               p.reviewLabel, p.imageReviewID, p.sessionLabel, p.seriesNumber.value);
    SubjectIDCommutes(p.fieldDict, subject, scanType, subjectID, p.date.value, p.time.value, p.project,
                      p.reviewLabel, p.imageReviewID, p.sessionLabel, p.seriesNumber.value);
    if !FormatsAsAscii(dict) {
      // `_getSQLiteCommand` raises before anything is executed
      return Failure(NonAsciiText);
    }
    var ok := InsertAndCommit(db, dict);
    r := if ok then Success(()) else Failure(RejectedStatement);
  }

  /**
    * `fillDBFromXMLs(expList)`: each listing line in turn is stored; the
    * first error ends the fill with the rows committed so far.
    */
  method FillDBFromListing(db: ImageEvalDB, lines: seq<string>, fetch: string -> Document)
    returns (r: Result<(), IngestError>)
    modifies db
    ensures Inserted(old(db.rows), db.rows, RecordsForLines(lines, fetch), r)
    ensures db.committed == db.rows || (db.rows == old(db.rows) && db.committed == old(db.committed))
  {
    ghost var records := RecordsForLines(lines, fetch);
    ghost var before := db.rows;
    var i := 0;
    while i < |lines|
      invariant 0 <= i <= |lines|
      invariant Inserted(before, db.rows, records[..i], Success(()))
      invariant db.committed == db.rows || (db.rows == before && db.committed == old(db.committed))
    {
      ghost var mid := db.rows;
      r := LoadLine(db, lines[i], fetch);
      InsertedStep(before, mid, db.rows, records, i, r);
      if r.Failure? {
        return;
      }
      i := i + 1;
    }
    assert records[..i] == records;
    r := Success(());
  }

  /** `os.path.splitext(f)[1] == ".xml"` filter: the files the downloading script reads, in listing order. */
  function XmlFiles(files: seq<(string, Document)>): (xs: seq<(string, Document)>)
    ensures |xs| <= |files|
  {
    if files == [] then []
    else
      var last := files[|files| - 1];
      XmlFiles(files[..|files| - 1]) + if HasXmlExtension(last.0) then [last] else []
  }

  /** The records the downloading script builds, one per `.xml` file. */
  function RecordsForFiles(files: seq<(string, Document)>): (rs: seq<Result<Row, IngestError>>)
    ensures |rs| == |XmlFiles(files)|
  {
    var xs := XmlFiles(files);
    seq(|xs|, i requires 0 <= i < |xs| => RecordForFile(xs[i].0, xs[i].1))
  }

  lemma {:induction false} XmlFilesConcat(a: seq<(string, Document)>, b: seq<(string, Document)>)
    ensures XmlFiles(a + b) == XmlFiles(a) + XmlFiles(b)
    decreases |b|
  {
    if b == [] {
      assert a + b == a;
    } else {
      var init, last := b[..|b| - 1], b[|b| - 1];
      XmlFilesConcat(a, init);
      assert b == init + [last];
      assert a + b == (a + init) + [last];
      XmlFilesStep(a + init, last);
      XmlFilesStep(init, last);
      var t := if HasXmlExtension(last.0) then [last] else [];
      ConcatAssoc(XmlFiles(a), XmlFiles(init), t);
    }
  }

  /** One unfolding of `XmlFiles`: the last file is kept when it ends in `.xml`. */
  lemma XmlFilesStep(init: seq<(string, Document)>, last: (string, Document))
    ensures XmlFiles(init + [last]) == XmlFiles(init) + if HasXmlExtension(last.0) then [last] else []
  {
    assert (init + [last])[..|init|] == init;
  }

  lemma ConcatAssoc<T>(x: seq<T>, y: seq<T>, z: seq<T>)
    ensures x + y + z == x + (y + z)
  {
  }

  /** The records of a longer listing start with those of a shorter one. */
  lemma RecordsForFilesPrefix(files: seq<(string, Document)>, k: nat)
    requires k <= |files|
    ensures RecordsForFiles(files[..k]) <= RecordsForFiles(files)
    ensures k < |files| ==>
              RecordsForFiles(files[..k + 1]) == RecordsForFiles(files[..k]) +
                (if HasXmlExtension(files[k].0) then [RecordForFile(files[k].0, files[k].1)] else [])
  {
    assert files == files[..k] + files[k..];
    XmlFilesConcat(files[..k], files[k..]);
    if k < |files| {
      assert files[..k + 1][..k] == files[..k];
    }
  }

  /** A failure among the first records is the failure of any longer list. */
  lemma InsertedFailureExtends(before: seq<Row>, after: seq<Row>, records: seq<Result<Row, IngestError>>,
                               all: seq<Result<Row, IngestError>>, r: Result<(), IngestError>)
    requires Inserted(before, after, records, r) && r.Failure?
    requires records <= all
    ensures Inserted(before, after, all, r)
  {
    assert forall k :: 0 <= k < |records| ==> all[k] == records[k];
  }

  /** Storing the next `.xml` file extends what the files before it stored. */
  lemma FilesStep(before: seq<Row>, mid: seq<Row>, after: seq<Row>, files: seq<(string, Document)>, i: nat,
                  r: Result<(), IngestError>)
    requires i < |files| && HasXmlExtension(files[i].0)
    requires Inserted(before, mid, RecordsForFiles(files[..i]), Success(()))
    requires LoadedOne(mid, after, RecordForFile(files[i].0, files[i].1), r)
    ensures r.Success? ==> Inserted(before, after, RecordsForFiles(files[..i + 1]), r)
    ensures r.Failure? ==> Inserted(before, after, RecordsForFiles(files), r)
  {
    RecordsForFilesPrefix(files, i);
    var records := RecordsForFiles(files[..i + 1]);
    assert records[..|records| - 1] == RecordsForFiles(files[..i]);
    InsertedStep(before, mid, after, records, |records| - 1, r);
    if r.Failure? {
      RecordsForFilesPrefix(files, i + 1);
      InsertedFailureExtends(before, after, records, RecordsForFiles(files), r);
    } else {
      assert records[..|records|] == records;
    }
  }

  /**
    * The body of `FillDBFromXMLs`' loop for one `.xml` file: parse it,
    * overlay the extra columns, add the subject ID when the file name
    * matches the saved-name pattern, insert and commit.
    */
  method LoadFile(db: ImageEvalDB, name: string, doc: Document) returns (r: Result<(), IngestError>)
    modifies db
    ensures LoadedOne(old(db.rows), db.rows, RecordForFile(name, doc), r)
    ensures r.Success? ==> db.committed == db.rows
    ensures r.Failure? ==> db.committed == old(db.committed)
  {
    var parsed := ParseToFields.FromXml(doc);
    if parsed.Failure? {
      return Failure(Unparsable(parsed.error));
    }
    var p := parsed.value;
    var subjectID := MatchXmlFileName(name);
    RecordOfParts(doc, subjectID);
    // the record is overlaid on a copy: the object is dropped right after
    var dict := p.fieldDict;
    var (subject, scanType) := FindSessionAndScanType(dict["imagefile"]);
    if p.date.None? || p.time.None? || p.seriesNumber.None? {
      return Failure(MissingText);
    }
    dict := dict["subject" := subject];
    dict := dict["scantype" := scanType];
    dict := dict["date" := p.date.value];
    dict := dict["time" := p.time.value];
    dict := dict["project" := p.project];
    dict := dict["xnatImageReviewLabel" := p.reviewLabel];
    dict := dict["xnatImageReviewID" := p.imageReviewID];
    dict := dict["session" := p.sessionLabel];
    dict := dict["seriesnumber" := p.seriesNumber.value];
    if subjectID.Some? {
      dict := dict["xnatSubjectID" := subjectID.value];
    }
    var ok := InsertAndCommit(db, dict);
    r := if ok then Success(()) else Failure(RejectedStatement);
  }

  /**
    * `FillDBFromXMLs`: every `.xml` file of the download directory in turn
    * is stored, other files are skipped; the first error ends the fill.
    * `files` is the directory listing, each name with the document its
    * file holds.
    */
  method FillDBFromXMLs(db: ImageEvalDB, files: seq<(string, Document)>) returns (r: Result<(), IngestError>)
    modifies db
    ensures Inserted(old(db.rows), db.rows, RecordsForFiles(files), r)
    ensures db.committed == db.rows || (db.rows == old(db.rows) && db.committed == old(db.committed))
  {
    ghost var before := db.rows;
    var i := 0;
    while i < |files|
      invariant 0 <= i <= |files|
      invariant Inserted(before, db.rows, RecordsForFiles(files[..i]), Success(()))
      invariant db.committed == db.rows || (db.rows == before && db.committed == old(db.committed))
    {
      var (name, doc) := files[i];
      if HasXmlExtension(name) {
        ghost var mid := db.rows;
        r := LoadFile(db, name, doc);
        FilesStep(before, mid, db.rows, files, i, r);
        if r.Failure? {
          return;
        }
      } else {
        RecordsForFilesPrefix(files, i);
      }
      i := i + 1;
    }
    assert files[..i] == files;
    r := Success(());
  }

  // ---------------------------------------------------------------------
  // The scripts' main flows
  // ---------------------------------------------------------------------

  /**
    * The listing script's `main` up to the fill: the listing is read, the
    * table recreated empty and filled with one row per listing line.
    */
  method RunListingScript(db: ImageEvalDB, listing: string, fetch: string -> Document)
    returns (r: Result<(), IngestError>)
    modifies db
    ensures Inserted([], db.rows, RecordsForLines(ListingLines(listing), fetch), r)
    ensures r.Success? ==> |db.rows| == |ListingLines(listing)|
    ensures db.committed == db.rows
  {
    var lines := ListingLines(listing);
    db.CreateDataBase();
    r := FillDBFromListing(db, lines, fetch);
  }

  /**
    * `GetImageEvalXMLsFromXNAT`: each listing line's evaluation saved under
    * the name built from the line, in listing order, or the field index
    * that raises `IndexError` on the first line with fewer than five fields.
    */
  function Downloads(lines: seq<string>, fetch: string -> Document): Result<seq<(string, Document)>, nat> {
    if lines == [] then Success([])
    else
      match Downloads(lines[..|lines| - 1], fetch)
      case Failure(i) => Failure(i)
      case Success(saved) =>
        var line := lines[|lines| - 1];
        match SavedXmlFileName(line)
        case Failure(i) => Failure(i)
        case Success(name) => Success(saved + [(name, fetch(LineFields(line)[4]))])
  }

  /** The downloads succeed when every line has five fields, and file `i` is line `i`'s evaluation. */
  lemma DownloadsShape(lines: seq<string>, fetch: string -> Document)
    ensures Downloads(lines, fetch).Success? <==> forall i :: 0 <= i < |lines| ==> |LineFields(lines[i])| >= 5
    ensures Downloads(lines, fetch).Success? ==>
      var saved := Downloads(lines, fetch).value;
      && |saved| == |lines|
      && forall i :: 0 <= i < |lines| ==>
           && SavedXmlFileName(lines[i]).Success?
           && saved[i] == (SavedXmlFileName(lines[i]).value, fetch(LineFields(lines[i])[4]))
  {
    DownloadsSucceed(lines, fetch);
    if Downloads(lines, fetch).Success? {
      DownloadsFiles(lines, fetch);
    }
  }

  /** The downloads succeed exactly when every line has five fields. */
  lemma {:induction false} DownloadsSucceed(lines: seq<string>, fetch: string -> Document)
    ensures Downloads(lines, fetch).Success? <==> forall i :: 0 <= i < |lines| ==> |LineFields(lines[i])| >= 5
  {
    if lines != [] {
      var init := lines[..|lines| - 1];
      DownloadsSucceed(init, fetch);
      FiveFieldsStep(lines, init);
    }
  }

  /** Every line has five fields exactly when all but the last do and the last does. */
  lemma FiveFieldsStep(lines: seq<string>, init: seq<string>)
    requires lines != [] && init == lines[..|lines| - 1]
    ensures (forall i :: 0 <= i < |lines| ==> |LineFields(lines[i])| >= 5) <==>
      (forall i :: 0 <= i < |init| ==> |LineFields(init[i])| >= 5) && |LineFields(lines[|lines| - 1])| >= 5
  {
    assert forall i :: 0 <= i < |init| ==> init[i] == lines[i];
  }

  /** Successful downloads save one file per line, in order. */
  lemma {:induction false} DownloadsFiles(lines: seq<string>, fetch: string -> Document)
    requires Downloads(lines, fetch).Success?
    ensures var saved := Downloads(lines, fetch).value;
      && |saved| == |lines|
      && forall i :: 0 <= i < |lines| ==>
           && SavedXmlFileName(lines[i]).Success?
           && saved[i] == (SavedXmlFileName(lines[i]).value, fetch(LineFields(lines[i])[4]))
  {
    if lines != [] {
      var init := lines[..|lines| - 1];
      var before := Downloads(init, fetch).value;
      DownloadsFiles(init, fetch);
      var saved := Downloads(lines, fetch).value;
      var line := lines[|lines| - 1];
      assert saved == before + [(SavedXmlFileName(line).value, fetch(LineFields(line)[4]))];
      forall i | 0 <= i < |lines|
        ensures SavedXmlFileName(lines[i]).Success?
        ensures saved[i] == (SavedXmlFileName(lines[i]).value, fetch(LineFields(lines[i])[4]))
      {
        if i < |init| {
          assert lines[i] == init[i];
          assert saved[i] == before[i];
        }
      }
    }
  }

  // ---------------------------------------------------------------------
  // The download directory
  // ---------------------------------------------------------------------

  /** The names of `files`, in order. */
  function Names(files: seq<(string, Document)>): seq<string> {
    seq(|files|, i requires 0 <= i < |files| => files[i].0)
  }

  predicate Distinct(names: seq<string>) {
    forall i, j :: 0 <= i < j < |names| ==> names[i] != names[j]
  }

  /**
    * The download directory once the files `saved` are written in turn:
    * `urlretrieve` overwrites a file of the same name, so a file stays
    * exactly when no later file has its name.  `os.listdir` gives no
    * particular order; the model lists the files in the order of their
    * last save.
    */
  function Directory(saved: seq<(string, Document)>): (dir: seq<(string, Document)>)
    ensures |dir| <= |saved|
  {
    if saved == [] then []
    else (if saved[0].0 in Names(saved[1..]) then [] else [saved[0]]) + Directory(saved[1..])
  }

  /** The document of the first file named `name` in `dir`. */
  function Lookup(dir: seq<(string, Document)>, name: string): Option<Document> {
    if dir == [] then None
    else if dir[0].0 == name then Some(dir[0].1)
    else Lookup(dir[1..], name)
  }

  /** The document saved last under `name`, if any was. */
  function LastSaved(saved: seq<(string, Document)>, name: string): Option<Document> {
    if saved == [] then None
    else if saved[|saved| - 1].0 == name then Some(saved[|saved| - 1].1)
    else LastSaved(saved[..|saved| - 1], name)
  }

  lemma NamesTail(files: seq<(string, Document)>)
    requires files != []
    ensures Names(files) == [files[0].0] + Names(files[1..])
  {
  }

  lemma DistinctCons(names: seq<string>)
    requires names != []
    ensures Distinct(names) <==> names[0] !in names[1..] && Distinct(names[1..])
  {
    if names[0] !in names[1..] && Distinct(names[1..]) {
      forall i, j | 0 <= i < j < |names|
        ensures names[i] != names[j]
      {
        if i == 0 {
          assert names[j] == names[1..][j - 1];
        } else {
          assert names[i] == names[1..][i - 1] && names[j] == names[1..][j - 1];
        }
      }
    }
    if Distinct(names) {
      forall j | 0 <= j < |names[1..]|
        ensures names[1..][j] != names[0]
      {
        assert names[1..][j] == names[j + 1];
      }
      forall i, j | 0 <= i < j < |names[1..]|
        ensures names[1..][i] != names[1..][j]
      {
        assert names[1..][i] == names[i + 1] && names[1..][j] == names[j + 1];
      }
    }
  }

  /** A name was saved exactly when some document was saved under it last. */
  lemma {:induction false} LastSavedNamed(saved: seq<(string, Document)>, name: string)
    ensures LastSaved(saved, name).Some? <==> name in Names(saved)
  {
    if saved != [] {
      var init := saved[..|saved| - 1];
      LastSavedNamed(init, name);
      assert Names(saved) == Names(init) + [saved[|saved| - 1].0];
    }
  }

  /** Saving the first file before the others changes what its name holds only when no other file has it. */
  lemma {:induction false} LastSavedCons(saved: seq<(string, Document)>, name: string)
    requires saved != []
    ensures LastSaved(saved, name) ==
      if LastSaved(saved[1..], name).Some? || saved[0].0 != name then LastSaved(saved[1..], name)
      else Some(saved[0].1)
  {
    if |saved| > 1 {
      var init := saved[..|saved| - 1];
      LastSavedCons(init, name);
      assert init[1..] == saved[1..][..|saved[1..]| - 1];
    }
  }

  /** A name is looked up exactly when a file of `dir` has it. */
  lemma {:induction false} LookupNamed(dir: seq<(string, Document)>, name: string)
    ensures Lookup(dir, name).Some? <==> name in Names(dir)
  {
    if dir != [] {
      LookupNamed(dir[1..], name);
      NamesTail(dir);
    }
  }

  /**
    * The directory lists each name once, every name saved is in it, and
    * the file of that name holds the document saved under it last.
    */
  lemma {:induction false} DirectoryLastSave(saved: seq<(string, Document)>)
    ensures Distinct(Names(Directory(saved)))
    ensures forall name :: Lookup(Directory(saved), name) == LastSaved(saved, name)
  {
    if saved != [] {
      var rest := saved[1..];
      DirectoryLastSave(rest);
      var dir := Directory(saved);
      var first := saved[0];
      NamesTail(saved);
      if first.0 in Names(rest) {
        assert dir == Directory(rest);
        LastSavedNamed(rest, first.0);
        forall name
          ensures Lookup(dir, name) == LastSaved(saved, name)
        {
          LastSavedCons(saved, name);
        }
      } else {
        assert dir == [first] + Directory(rest);
        assert dir[1..] == Directory(rest);
        LastSavedNamed(rest, first.0);
        forall name
          ensures Lookup(dir, name) == LastSaved(saved, name)
        {
          LastSavedCons(saved, name);
        }
        NamesTail(dir);
        LookupNamed(Directory(rest), first.0);
        DistinctCons(Names(dir));
      }
    }
  }

  /** Every file of the directory is one of the files saved. */
  lemma {:induction false} DirectoryFromSaved(saved: seq<(string, Document)>)
    ensures forall f :: f in Directory(saved) ==> f in saved
  {
    if saved != [] {
      DirectoryFromSaved(saved[1..]);
    }
  }

  /**
    * The directory holds every saved file exactly when no two files were
    * saved under one name; otherwise it holds fewer files than were saved.
    */
  lemma {:induction false} DirectoryKeepsEveryFile(saved: seq<(string, Document)>)
    ensures Directory(saved) == saved <==> Distinct(Names(saved))
    ensures !Distinct(Names(saved)) ==> |Directory(saved)| < |saved|
  {
    if saved != [] {
      var rest := saved[1..];
      DirectoryKeepsEveryFile(rest);
      NamesTail(saved);
      DistinctCons(Names(saved));
      assert saved == [saved[0]] + rest;
    }
  }

  /**
    * The downloading script's `Main` up to the fill: the listing is read,
    * the table recreated empty, each evaluation saved, and the download
    * directory read back.
    */
  method RunDownloadScript(db: ImageEvalDB, listing: string, fetch: string -> Document)
    returns (r: Result<(), IngestError>)
    modifies db
    ensures var saved := Downloads(ListingLines(listing), fetch);
      && (saved.Failure? ==> db.rows == [] && r == Failure(BadListingLine(saved.error)))
      && (saved.Success? ==> Inserted([], db.rows, RecordsForFiles(Directory(saved.value)), r))
    ensures db.committed == db.rows
  {
    var lines := ListingLines(listing);
    db.CreateDataBase();
    var saved := Downloads(lines, fetch);
    if saved.Failure? {
      return Failure(BadListingLine(saved.error));
    }
    r := FillDBFromXMLs(db, Directory(saved.value));
  }

  // ---------------------------------------------------------------------
  // What a row holds
  // ---------------------------------------------------------------------

  /** The columns the fill loops write over the parsed record. */
  const OverlayColumns: set<string> := {"subject", "scantype", "date", "time", "project",
    "xnatImageReviewLabel", "xnatImageReviewID", "session", "seriesnumber", "xnatSubjectID"}

  /**
    * A record's derived columns: subject and scan type from the image file
    * name, the root's project, label and ID, the session as the label's
    * first five characters, and the subject ID exactly when one is known.
    */
  lemma RecordDerivedColumns(doc: Document, xnatSubjectID: Option<string>)
    requires RecordOf(doc, xnatSubjectID).Success?
    ensures Parse(doc).Success? && "imagefile" in Parse(doc).value.fieldDict
    ensures var r := RecordOf(doc, xnatSubjectID).value;
      && "subject" in r && "scantype" in r && "session" in r && "project" in r
      && "xnatImageReviewLabel" in r && "xnatImageReviewID" in r
      && (r["subject"], r["scantype"]) == FindSessionAndScanType(Parse(doc).value.fieldDict["imagefile"])
      && r["project"] == doc.attrs["project"]
      && r["xnatImageReviewLabel"] == doc.attrs["label"]
      && r["xnatImageReviewID"] == doc.attrs["ID"]
      && r["session"] == SessionLabel(doc.attrs["label"])
      && ("xnatSubjectID" in r <==> xnatSubjectID.Some?)
      && (xnatSubjectID.Some? ==> r["xnatSubjectID"] == xnatSubjectID.value)
  {
    RecordOfParts(doc, xnatSubjectID);
    ParsedRoot(doc);
    var p := Parse(doc).value;
    AssembledColumns(p, xnatSubjectID);
    SubjectIdNeverParsed(doc);
  }

  /** The parsed record never has an `xnatSubjectID` column: it is not seeded and no element writes it. */
  lemma SubjectIdNeverParsed(doc: Document)
    requires Parse(doc).Success?
    ensures "xnatSubjectID" !in Parse(doc).value.fieldDict
  {
    SubjectIdNotSeeded();
    assert "xnatSubjectID"[4] == 'S' && IsUpper('S');
    MixedCaseNeverWritten(doc.elements, "xnatSubjectID");
    ParsedColumn(doc, "xnatSubjectID");
  }

  /** The columns a successful assembly writes, in terms of the parsed record. */
  lemma AssembledColumns(p: Parsed, xnatSubjectID: Option<string>)
    requires "imagefile" in p.fieldDict
    requires AssembleRecord(p, xnatSubjectID).Success?
    ensures var r := AssembleRecord(p, xnatSubjectID).value;
      && "subject" in r && "scantype" in r && "session" in r && "project" in r
      && "xnatImageReviewLabel" in r && "xnatImageReviewID" in r
      && (r["subject"], r["scantype"]) == FindSessionAndScanType(p.fieldDict["imagefile"])
      && r["project"] == p.project
      && r["xnatImageReviewLabel"] == p.reviewLabel
      && r["xnatImageReviewID"] == p.imageReviewID
      && r["session"] == p.sessionLabel
      && ("xnatSubjectID" in r <==> xnatSubjectID.Some? || "xnatSubjectID" in p.fieldDict)
      && (xnatSubjectID.Some? ==> r["xnatSubjectID"] == xnatSubjectID.value)
  {
    var (subject, scanType) := FindSessionAndScanType(p.fieldDict["imagefile"]);
    var d := Overlay(p.fieldDict, subject, scanType, p.date.value, p.time.value, p.project,
                     p.reviewLabel, p.imageReviewID, p.sessionLabel, p.seriesNumber.value);
    OverlayWrites(p.fieldDict, subject, scanType, p.date.value, p.time.value, p.project,
                   p.reviewLabel, p.imageReviewID, p.sessionLabel, p.seriesNumber.value);
    assert AssembleRecord(p, xnatSubjectID).value ==
      if xnatSubjectID.Some? then d["xnatSubjectID" := xnatSubjectID.value] else d;
  }

  /** The overlay sets its own columns and keeps `xnatSubjectID` as it was. */
  lemma OverlayWrites(d: Row, subject: string, scanType: string, date: string, time: string, project: string,
                       reviewLabel: string, id: string, session: string, seriesNumber: string)
    ensures var o := Overlay(d, subject, scanType, date, time, project, reviewLabel, id, session, seriesNumber);
      && "subject" in o && "scantype" in o && "session" in o && "project" in o
      && "xnatImageReviewLabel" in o && "xnatImageReviewID" in o
      && o["subject"] == subject && o["scantype"] == scanType && o["project"] == project
      && o["xnatImageReviewLabel"] == reviewLabel && o["xnatImageReviewID"] == id && o["session"] == session
      && ("xnatSubjectID" in o <==> "xnatSubjectID" in d)
  {
    assert "xnatSubjectID"[0] == 'x' && "subject"[0] == 's' && "scantype"[0] == 's' && "session"[0] == 's';
    assert "xnatSubjectID"[4] == 'S' && "xnatImageReviewLabel"[4] == 'I' && "xnatImageReviewID"[4] == 'I';
  }

  /**
    * The date, time and series number are the texts of the last such
    * elements (empty when there is none), and the record fails with
    * `MissingText` exactly when one of those last elements has no text.
    */
  lemma RecordTexts(doc: Document, xnatSubjectID: Option<string>)
    requires Parse(doc).Success?
    ensures var es := doc.elements;
      RecordOf(doc, xnatSubjectID).Failure? <==>
        LastText(es, DateTag) == Some(None) || LastText(es, TimeTag) == Some(None) ||
        LastText(es, SeriesNumberTag) == Some(None)
    ensures RecordOf(doc, xnatSubjectID).Success? ==>
      var es := doc.elements;
      var r := RecordOf(doc, xnatSubjectID).value;
      && "date" in r && "time" in r && "seriesnumber" in r
      && LastText(es, DateTag).GetOr(Some("")) == Some(r["date"])
      && LastText(es, TimeTag).GetOr(Some("")) == Some(r["time"])
      && LastText(es, SeriesNumberTag).GetOr(Some("")) == Some(r["seriesnumber"])
  {
    var seed := Seed(doc.attrs["project"], doc.attrs["label"], doc.attrs["ID"]);
    RecordOfParts(doc, xnatSubjectID);
    WalkCaptures(seed, doc.elements, DateTag);
    WalkCaptures(seed, doc.elements, TimeTag);
    WalkCaptures(seed, doc.elements, SeriesNumberTag);
  }

  /**
    * Every other column is the parsed record's: present exactly when it is
    * seeded or some field writes it, holding the last write or its seed.
    */
  lemma RecordParsedColumn(doc: Document, xnatSubjectID: Option<string>, column: string)
    requires RecordOf(doc, xnatSubjectID).Success?
    requires column !in OverlayColumns
    ensures Parse(doc).Success?
    ensures var r := RecordOf(doc, xnatSubjectID).value;
      && (column in r <==> column in SeededColumns || LastWrite(doc.elements, column).Some?)
      && (column in r ==> r[column] == LastWrite(doc.elements, column).GetOr(SeedValue(column)))
  {
    RecordOfParts(doc, xnatSubjectID);
    ParsedColumn(doc, column);
  }

  /** Every seeded column is in every record. */
  lemma RecordHasSeededColumns(doc: Document, xnatSubjectID: Option<string>)
    requires RecordOf(doc, xnatSubjectID).Success?
    ensures forall c :: c in SeededColumns ==> c in RecordOf(doc, xnatSubjectID).value
  {
    RecordOfParts(doc, xnatSubjectID);
    ParsedHasSeededColumns(doc);
  }

  /**
    * The `xnatSessionID` column is always `NA`: the captured
    * `imageSession_ID` text is never copied into the record, and no field
    * name normalises to a name with an upper-case letter.
    */
  lemma RecordSessionIdUnset(doc: Document, xnatSubjectID: Option<string>)
    requires RecordOf(doc, xnatSubjectID).Success?
    ensures "xnatSessionID" in RecordOf(doc, xnatSubjectID).value
    ensures RecordOf(doc, xnatSubjectID).value["xnatSessionID"] == NotAvailable
  {
    RecordOfParts(doc, xnatSubjectID);
    SessionIdKeepsSeed(doc);
  }

  /** The listing script's row for a line carries field 2 of the line as `xnatSubjectID`. */
  lemma ListingRecordSubject(line: string, fetch: string -> Document)
    requires RecordForLine(line, fetch).Success?
    ensures var fields := LineFields(line);
      && |fields| >= 5
      && RecordForLine(line, fetch) == RecordOf(fetch(fields[4]), Some(fields[2]))
      && "xnatSubjectID" in RecordForLine(line, fetch).value
      && RecordForLine(line, fetch).value["xnatSubjectID"] == fields[2]
  {
    var fields := LineFields(line);
    RecordDerivedColumns(fetch(fields[4]), Some(fields[2]));
  }

  /**
    * A field value outside ASCII that reaches the listing script's record
    * makes its iteration fail with `NonAsciiText`, while the downloading
    * script, which builds its statement with `+`, gets a record from the
    * same evaluation under any file name.
    */
  lemma NonAsciiFieldAborts(line: string, fetch: string -> Document, column: string)
    requires |LineFields(line)| >= 5
    requires RecordOf(fetch(LineFields(line)[4]), Some(LineFields(line)[2])).Success?
    requires column !in OverlayColumns
    requires LastWrite(fetch(LineFields(line)[4]).elements, column).Some?
    requires !IsAscii(LastWrite(fetch(LineFields(line)[4]).elements, column).value)
    ensures RecordForLine(line, fetch) == Failure(NonAsciiText)
    ensures forall name :: RecordForFile(name, fetch(LineFields(line)[4])).Success?
  {
    var doc := fetch(LineFields(line)[4]);
    var subjectID := LineFields(line)[2];
    RecordParsedColumn(doc, Some(subjectID), column);
    assert column != "xnatSubjectID";
    forall name
      ensures RecordForFile(name, doc).Success?
    {
      RecordOfParts(doc, Some(subjectID));
      RecordOfParts(doc, MatchXmlFileName(name));
    }
  }

  // ---------------------------------------------------------------------
  // Both scripts build the same rows
  // ---------------------------------------------------------------------

  /** A listing line with five fields, the first four free of `-` and `/`. */
  predicate WellFormedLine(line: string) {
    var fields := LineFields(line);
    |fields| >= 5 && forall k :: 0 <= k < 4 ==> '-' !in fields[k] && '/' !in fields[k]
  }

  /** For a well-formed line, the saved file is read back and gives the listing script's record. */
  lemma LineAgrees(line: string, fetch: string -> Document)
    requires WellFormedLine(line)
    ensures SavedXmlFileName(line).Success?
    ensures HasXmlExtension(SavedXmlFileName(line).value)
    ensures RecordForLine(line, fetch) == ListingFormat(RecordForFile(SavedXmlFileName(line).value, fetch(LineFields(line)[4])))
  {
    var f := LineFields(line);
    assert '-' !in f[0] && '/' !in f[0] && '-' !in f[1] && '/' !in f[1];
    assert '-' !in f[2] && '/' !in f[2] && '-' !in f[3] && '/' !in f[3];
    XmlFileNameHasExtension(f[3], f[2], f[0], f[1]);
    XmlFileNameRoundTrip(f[3], f[2], f[0], f[1]);
  }

  lemma {:induction false} XmlFilesAll(files: seq<(string, Document)>)
    requires forall i :: 0 <= i < |files| ==> HasXmlExtension(files[i].0)
    ensures XmlFiles(files) == files
  {
    if files != [] {
      XmlFilesAll(files[..|files| - 1]);
    }
  }

  /** No two lines give the same saved file name. */
  predicate DistinctSavedNames(lines: seq<string>) {
    forall i, j :: 0 <= i < j < |lines| ==> SavedXmlFileName(lines[i]) != SavedXmlFileName(lines[j])
  }

  /** Record `i` of the listing script is what its statement builder makes of record `i` of the files. */
  ghost predicate FormattedAs(fromLines: seq<Result<Row, IngestError>>, fromFiles: seq<Result<Row, IngestError>>) {
    && |fromLines| == |fromFiles|
    && forall i :: 0 <= i < |fromLines| ==> fromLines[i] == ListingFormat(fromFiles[i])
  }

  /** No record holds text the listing script's statement builder refuses. */
  ghost predicate AllFormat(records: seq<Result<Row, IngestError>>) {
    forall i :: 0 <= i < |records| ==> ListingFormat(records[i]) == records[i]
  }

  /**
    * When every listing line is well formed and no two give the same file
    * name, the download directory holds exactly the saved files, and reading
    * them back builds the listing script's records in the same order, except
    * that the listing script fails where the text is not ASCII; when all of
    * it is, the records are the same.
    */
  lemma BothScriptsAgree(lines: seq<string>, fetch: string -> Document)
    requires forall i :: 0 <= i < |lines| ==> WellFormedLine(lines[i])
    requires DistinctSavedNames(lines)
    ensures Downloads(lines, fetch).Success?
    ensures Directory(Downloads(lines, fetch).value) == Downloads(lines, fetch).value
    ensures FormattedAs(RecordsForLines(lines, fetch), RecordsForFiles(Downloads(lines, fetch).value))
    ensures AllFormat(RecordsForFiles(Downloads(lines, fetch).value)) ==>
              RecordsForLines(lines, fetch) == RecordsForFiles(Downloads(lines, fetch).value)
  {
    WellFormedDownloads(lines, fetch);
    SavedAgree(lines, Downloads(lines, fetch).value, fetch);
  }

  lemma SavedAgree(lines: seq<string>, saved: seq<(string, Document)>, fetch: string -> Document)
    requires forall i :: 0 <= i < |lines| ==> WellFormedLine(lines[i])
    requires DistinctSavedNames(lines)
    requires SavedAs(lines, saved, fetch)
    ensures Directory(saved) == saved
    ensures FormattedAs(RecordsForLines(lines, fetch), RecordsForFiles(saved))
    ensures AllFormat(RecordsForFiles(saved)) ==> RecordsForLines(lines, fetch) == RecordsForFiles(saved)
  {
    SavedNamesDistinct(lines, saved, fetch);
    DirectoryKeepsEveryFile(saved);
    SavedFilesAgree(lines, saved, fetch);
    FormattedAsSame(RecordsForLines(lines, fetch), RecordsForFiles(saved));
  }

  lemma FormattedAsSame(fromLines: seq<Result<Row, IngestError>>, fromFiles: seq<Result<Row, IngestError>>)
    requires FormattedAs(fromLines, fromFiles)
    ensures AllFormat(fromFiles) ==> fromLines == fromFiles
  {
  }

  /**
    * When two well-formed lines give the same file name, the second download
    * overwrites the first, and the downloading script builds fewer records
    * than the listing script.
    */
  lemma RepeatedNameLoadedOnce(lines: seq<string>, fetch: string -> Document)
    requires forall i :: 0 <= i < |lines| ==> WellFormedLine(lines[i])
    requires !DistinctSavedNames(lines)
    ensures Downloads(lines, fetch).Success?
    ensures |RecordsForFiles(Directory(Downloads(lines, fetch).value))| < |RecordsForLines(lines, fetch)|
  {
    WellFormedDownloads(lines, fetch);
    var saved := Downloads(lines, fetch).value;
    SavedNamesDistinct(lines, saved, fetch);
    DirectoryKeepsEveryFile(saved);
    DirectoryAllXml(lines, saved, fetch);
    XmlFilesAll(Directory(saved));
  }

  /** Every file in the directory of well-formed lines' downloads is an `.xml` file. */
  lemma DirectoryAllXml(lines: seq<string>, saved: seq<(string, Document)>, fetch: string -> Document)
    requires forall i :: 0 <= i < |lines| ==> WellFormedLine(lines[i])
    requires SavedAs(lines, saved, fetch)
    ensures forall k :: 0 <= k < |Directory(saved)| ==> HasXmlExtension(Directory(saved)[k].0)
  {
    var dir := Directory(saved);
    DirectoryFromSaved(saved);
    forall k | 0 <= k < |dir|
      ensures HasXmlExtension(dir[k].0)
    {
      assert dir[k] in saved;
      var i :| 0 <= i < |saved| && saved[i] == dir[k];
      SavedLineAgrees(lines, saved, fetch, i);
    }
  }

  /** The saved names are distinct exactly when the lines give distinct names. */
  lemma SavedNamesDistinct(lines: seq<string>, saved: seq<(string, Document)>, fetch: string -> Document)
    requires SavedAs(lines, saved, fetch)
    ensures Distinct(Names(saved)) <==> DistinctSavedNames(lines)
  {
    assert forall i :: 0 <= i < |saved| ==> Names(saved)[i] == SavedXmlFileName(lines[i]).value;
  }

  /** `saved` holds, for each line in turn, the evaluation under the name the line gives it. */
  ghost predicate SavedAs(lines: seq<string>, saved: seq<(string, Document)>, fetch: string -> Document) {
    && |saved| == |lines|
    && forall i :: 0 <= i < |lines| ==>
         && SavedXmlFileName(lines[i]).Success?
         && saved[i] == (SavedXmlFileName(lines[i]).value, fetch(LineFields(lines[i])[4]))
  }

  /** Well-formed lines are all downloaded, file `i` holding line `i`'s evaluation. */
  lemma WellFormedDownloads(lines: seq<string>, fetch: string -> Document)
    requires forall i :: 0 <= i < |lines| ==> WellFormedLine(lines[i])
    ensures Downloads(lines, fetch).Success?
    ensures SavedAs(lines, Downloads(lines, fetch).value, fetch)
  {
    DownloadsShape(lines, fetch);
  }

  /** The files saved for well-formed lines, read back, give the records of those lines. */
  lemma SavedFilesAgree(lines: seq<string>, saved: seq<(string, Document)>, fetch: string -> Document)
    requires forall i :: 0 <= i < |lines| ==> WellFormedLine(lines[i])
    requires SavedAs(lines, saved, fetch)
    ensures FormattedAs(RecordsForLines(lines, fetch), RecordsForFiles(saved))
  {
    forall i | 0 <= i < |lines|
      ensures HasXmlExtension(saved[i].0)
      ensures RecordForLine(lines[i], fetch) == ListingFormat(RecordForFile(saved[i].0, saved[i].1))
    {
      SavedLineAgrees(lines, saved, fetch, i);
    }
    RecordsAgree(lines, saved, fetch);
  }

  lemma SavedLineAgrees(lines: seq<string>, saved: seq<(string, Document)>, fetch: string -> Document, i: nat)
    requires i < |lines| && WellFormedLine(lines[i])
    requires SavedAs(lines, saved, fetch)
    ensures HasXmlExtension(saved[i].0)
    ensures RecordForLine(lines[i], fetch) == ListingFormat(RecordForFile(saved[i].0, saved[i].1))
  {
    LineAgrees(lines[i], fetch);
  }

  /** Files that all end in `.xml`, each giving the record of the matching line, give the lines' records. */
  lemma RecordsAgree(lines: seq<string>, saved: seq<(string, Document)>, fetch: string -> Document)
    requires |saved| == |lines|
    requires forall i :: 0 <= i < |lines| ==> HasXmlExtension(saved[i].0)
    requires forall i :: 0 <= i < |lines| ==>
               RecordForLine(lines[i], fetch) == ListingFormat(RecordForFile(saved[i].0, saved[i].1))
    ensures FormattedAs(RecordsForLines(lines, fetch), RecordsForFiles(saved))
  {
    XmlFilesAll(saved);
  }
}
