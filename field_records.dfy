/**
  * The field record built from one image-evaluation XML document
  * (`ParseToFields` in both scripts): 26 seeded columns, the root's
  * `project`, `label` and `ID` attributes, the texts of the date, time,
  * series-number and session-ID elements, and every `field` element applied
  * to the record in document order.
  *
  * The XML text itself is not parsed here: a `Document` is what
  * ElementTree's `fromstring` and `getiterator` produce, the root's
  * attributes and the elements in document order.
  */
module FieldRecords {
  import opened Wrappers
  import opened Text

  const FieldTag := "{http://nrg.wustl.edu/phd}field"
  const DateTag := "{http://nrg.wustl.edu/xnat}date"
  const TimeTag := "{http://nrg.wustl.edu/xnat}time"
  const SeriesNumberTag := "{http://nrg.wustl.edu/phd}series_number"
  const ImageSessionIdTag := "{http://nrg.wustl.edu/xnat}imageSession_ID"

  /** The one field name whose missing value is replaced rather than ignored. */
  const FreeFormNotes := "Free Form Notes"
  const NotAvailable := "NA"
  const BlankNote := " "
  /** The seeded column that `makeSQLColName("Free Form Notes")` names. */
  const NotesColumn := "freeformnotes"

  /** The columns every record starts with, in the order the scripts list them. */
  const SeededColumns: seq<string> := [
    "susceptibilitymetal", "scantype", "flowartifact", "freeformnotes", "subject",
    "session", "seriesnumber", "cnr", "overallqaassessment", "truncationartifact",
    "ghostingmotion", "imagefile", "lesions", "misalignment", "snr", "date", "evaluator",
    "xnatImageReviewLabel", "xnatSessionID", "fullbraincoverage", "normalvariants",
    "evaluationcompleted", "project", "swapwraparound", "inhomogeneity", "time"]

  /** The seed of a column: a blank for the free-form notes, `NA` for every other. */
  function SeedValue(column: string): string {
    if column == NotesColumn then BlankNote else NotAvailable
  }

  /** The record before any field element is applied. */
  function SeededRecord(): map<string, string> {
    map c | c in SeededColumns :: SeedValue(c)
  }

  /** The seeded record has 26 distinct columns. */
  lemma SeededRecordSize()
    ensures |SeededRecord()| == 26
  {
    var keys := set c | c in SeededColumns;
    assert SeededRecord().Keys == keys;
    assert forall i, j :: 0 <= i < j < |SeededColumns| ==> SeededColumns[i] != SeededColumns[j];
    SeqSetSize(SeededColumns);
  }

  /** A sequence without repetitions has as many distinct elements as positions. */
  lemma {:induction false} SeqSetSize(s: seq<string>)
    requires forall i, j :: 0 <= i < j < |s| ==> s[i] != s[j]
    ensures |set c | c in s| == |s|
  {
    if s != [] {
      var last := s[|s| - 1];
      var init := s[..|s| - 1];
      SeqSetSize(init);
      assert (set c | c in s) == (set c | c in init) + {last};
      assert last !in init;
    }
  }

  /** `makeSQLColName`: the field name with spaces and slashes removed, then lower-cased. */
  function MakeSQLColName(name: string): string {
    Lower(RemoveChar(RemoveChar(name, ' '), '/'))
  }

  /**
    * A column name holds no blank, no slash and no upper-case letter, is no
    * longer than the field name, and keeps every other character of it.
    */
  lemma MakeSQLColNameShape(name: string)
    ensures ' ' !in MakeSQLColName(name) && '/' !in MakeSQLColName(name)
    ensures forall x :: x in MakeSQLColName(name) ==> !IsUpper(x)
    ensures |MakeSQLColName(name)| <= |name|
    ensures forall x :: x in name && x != ' ' && x != '/' && !IsUpper(x) && !('a' <= x <= 'z') ==>
      x in MakeSQLColName(name)
  {
    var spaceless := RemoveChar(name, ' ');
    var kept := RemoveChar(spaceless, '/');
    RemoveCharSpec(name, ' ');
    RemoveCharSpec(spaceless, '/');
    LowerKeeps(kept, ' ');
    LowerKeeps(kept, '/');
    forall x | x in name && x != ' ' && x != '/' && !IsUpper(x) && !('a' <= x <= 'z')
      ensures x in MakeSQLColName(name)
    {
      LowerKeeps(kept, x);
    }
  }

  /** Normalising a normalised column name changes nothing. */
  lemma MakeSQLColNameIdempotent(name: string)
    ensures MakeSQLColName(MakeSQLColName(name)) == MakeSQLColName(name)
  {
    var column := MakeSQLColName(name);
    MakeSQLColNameShape(name);
    RemoveAbsent(column, ' ');
    RemoveAbsent(column, '/');
    LowerUnchanged(column);
  }

  /** A single blank is deleted entirely. */
  lemma RemoveBlank()
    ensures RemoveChar(" ", ' ') == []
  {
    assert " "[1..] == [];
  }

  /** Deleting the blanks of `a b c` glues the three words together. */
  lemma RemoveTwoBlanks(a: string, b: string, c: string)
    requires ' ' !in a && ' ' !in b && ' ' !in c
    ensures RemoveChar(a + " " + b + " " + c, ' ') == a + b + c
  {
    RemoveBlank();
    RemoveAbsent(a, ' ');
    RemoveAbsent(b, ' ');
    RemoveAbsent(c, ' ');
    RemoveCharConcat(a, " ", ' ');
    assert RemoveChar(a + " ", ' ') == a;
    RemoveCharConcat(a + " ", b, ' ');
    assert RemoveChar(a + " " + b, ' ') == a + b;
    RemoveCharConcat(a + " " + b, " ", ' ');
    assert RemoveChar(a + " " + b + " ", ' ') == a + b;
    RemoveCharConcat(a + " " + b + " ", c, ' ');
  }

  /** The free-form-notes field lands in the seeded `freeformnotes` column. */
  lemma FreeFormNotesColumn()
    ensures MakeSQLColName(FreeFormNotes) == NotesColumn
  {
    NotesColumnLiteral();
  }

  lemma NotesColumnLiteral()
    ensures MakeSQLColName("Free Form Notes") == "freeformnotes"
  {
    NotesBlanksRemoved();
    NotesHasNoSlash();
    NotesLowered();
  }

  lemma NotesBlanksRemoved()
    ensures RemoveChar("Free Form Notes", ' ') == "FreeFormNotes"
  {
    RemoveTwoBlanks("Free", "Form", "Notes");
    assert "Free" + " " + "Form" + " " + "Notes" == "Free Form Notes";
    assert "Free" + "Form" + "Notes" == "FreeFormNotes";
  }

  lemma NotesHasNoSlash()
    ensures RemoveChar("FreeFormNotes", '/') == "FreeFormNotes"
  {
    RemoveAbsent("FreeFormNotes", '/');
  }

  lemma NotesLowered()
    ensures Lower("FreeFormNotes") == "freeformnotes"
  {
  }

  /** One element as `getiterator()` yields it; `text` is `None` for an element without text. */
  datatype Element = Element(tag: string, attrs: map<string, string>, text: Option<string>)

  /** A parsed document: the root's attributes and every element in document order. */
  datatype Document = Document(attrs: map<string, string>, elements: seq<Element>)

  /** The `KeyError`s the constructor can raise. */
  datatype ParseError =
    | MissingRootAttribute(name: string)
    | FieldWithoutName(index: nat)

  /** The state of a `ParseToFields` object. */
  datatype Parsed = Parsed(
    project: string,
    reviewLabel: string,
    imageReviewID: string,
    sessionLabel: string,
    seriesNumber: Option<string>,
    date: Option<string>,
    time: Option<string>,
    sessionID: Option<string>,
    fieldDict: map<string, string>,
    sqlColNames: seq<string>)

  /** `label[0:5]`: at most the first five characters. */
  function SessionLabel(reviewLabel: string): string {
    reviewLabel[..if |reviewLabel| < 5 then |reviewLabel| else 5]
  }

  /** The state once the root attributes are read and before any element is seen. */
  function Seed(project: string, reviewLabel: string, id: string): Parsed {
    Parsed(project, reviewLabel, id, SessionLabel(reviewLabel), Some(""), Some(""), Some(""), Some(""),
           SeededRecord(), [])
  }

  /**
    * The column and value a named field element writes, if it writes one.
    * A valueless free-form-notes field writes the column
    * `makeSQLColName("Free Form Notes")`, which is `NotesColumn` by
    * `FreeFormNotesColumn`.
    */
  function FieldWrite(attrs: map<string, string>): Option<(string, string)>
    requires "name" in attrs
  {
    if "value" in attrs then Some((MakeSQLColName(attrs["name"]), attrs["value"]))
    else if attrs["name"] == FreeFormNotes then Some((NotesColumn, BlankNote))
    else None
  }

  /** The column and value any element writes into the record, if it writes one. */
  function Written(e: Element): Option<(string, string)> {
    if e.tag == FieldTag && "name" in e.attrs then FieldWrite(e.attrs) else None
  }

  /** One iteration of the element loop; `index` is the element's position. */
  function Step(st: Parsed, e: Element, index: nat): Result<Parsed, ParseError> {
    if e.tag == FieldTag then
      if "name" !in e.attrs then Failure(FieldWithoutName(index))
      else
        var names := st.sqlColNames + [MakeSQLColName(e.attrs["name"])];
        var dict := match FieldWrite(e.attrs)
          case Some((column, value)) => st.fieldDict[column := value]
          case None => st.fieldDict;
        Success(st.(fieldDict := dict, sqlColNames := names))
    else if e.tag == DateTag then Success(st.(date := e.text))
    else if e.tag == TimeTag then Success(st.(time := e.text))
    else if e.tag == SeriesNumberTag then Success(st.(seriesNumber := e.text))
    else if e.tag == ImageSessionIdTag then Success(st.(sessionID := e.text))
    else Success(st)
  }

  /** The element loop over `es`, stopping at the first element that raises. */
  function Walk(st: Parsed, es: seq<Element>): Result<Parsed, ParseError> {
    if es == [] then Success(st)
    else
      match Walk(st, es[..|es| - 1])
      case Failure(err) => Failure(err)
      case Success(s) => Step(s, es[|es| - 1], |es| - 1)
  }

  /** What `ParseToFields(xmlString)` computes, or the `KeyError` it raises. */
  function Parse(doc: Document): Result<Parsed, ParseError> {
    if "project" !in doc.attrs then Failure(MissingRootAttribute("project"))
    else if "label" !in doc.attrs then Failure(MissingRootAttribute("label"))
    else if "ID" !in doc.attrs then Failure(MissingRootAttribute("ID"))
    else Walk(Seed(doc.attrs["project"], doc.attrs["label"], doc.attrs["ID"]), doc.elements)
  }

  /** The value of the last element of `es` that writes `column`, if any does. */
  function LastWrite(es: seq<Element>, column: string): Option<string> {
    if es == [] then None
    else
      match Written(es[|es| - 1])
      case Some((c, v)) => if c == column then Some(v) else LastWrite(es[..|es| - 1], column)
      case None => LastWrite(es[..|es| - 1], column)
  }

  predicate WritesColumn(e: Element, column: string) {
    Written(e).Some? && Written(e).value.0 == column
  }

  /** `LastWrite` is `None` exactly when no element writes `column`. */
  lemma {:induction false} LastWriteNone(es: seq<Element>, column: string)
    ensures LastWrite(es, column).None? <==> forall i :: 0 <= i < |es| ==> !WritesColumn(es[i], column)
  {
    if es != [] {
      var init := es[..|es| - 1];
      LastWriteNone(init, column);
      LastWriteStep(es, column);
      assert forall i :: 0 <= i < |init| ==> init[i] == es[i];
    }
  }

  /** `LastWrite` is the value of a writer of `column` that no later element overrides. */
  lemma {:induction false} LastWriteIsLast(es: seq<Element>, column: string)
    ensures LastWrite(es, column).Some? ==>
      exists i :: 0 <= i < |es| && Written(es[i]) == Some((column, LastWrite(es, column).value)) &&
        forall j :: i < j < |es| ==> !WritesColumn(es[j], column)
  {
    if es != [] {
      var init, e := es[..|es| - 1], es[|es| - 1];
      LastWriteStep(es, column);
      if WritesColumn(e, column) {
        var i := |es| - 1;
        assert Written(es[i]) == Some((column, LastWrite(es, column).value));
      } else if LastWrite(init, column).Some? {
        LastWriteIsLast(init, column);
        var i :| 0 <= i < |init| && Written(init[i]) == Some((column, LastWrite(init, column).value)) &&
          forall j :: i < j < |init| ==> !WritesColumn(init[j], column);
        assert es[i] == init[i];
        forall j | i < j < |es|
          ensures !WritesColumn(es[j], column)
        {
          if j < |init| {
            assert es[j] == init[j];
          }
        }
      }
    }
  }

  /** The last element decides `LastWrite` when it writes the column; otherwise the earlier ones do. */
  lemma LastWriteStep(es: seq<Element>, column: string)
    requires es != []
    ensures LastWrite(es, column) ==
      if WritesColumn(es[|es| - 1], column) then Some(Written(es[|es| - 1]).value.1)
      else LastWrite(es[..|es| - 1], column)
  {
  }

  /**
    * After the loop, a column is in the record exactly when it was there
    * before or some element writes it, and its value is the last write, or
    * the value it had before when nothing writes it.
    */
  lemma {:induction false} WalkFieldDict(st: Parsed, es: seq<Element>, column: string)
    requires Walk(st, es).Success?
    ensures var d := Walk(st, es).value.fieldDict;
      && (column in d <==> column in st.fieldDict || LastWrite(es, column).Some?)
      && (column in d ==> d[column] == if LastWrite(es, column).Some? then LastWrite(es, column).value
                                       else st.fieldDict[column])
  {
    if es != [] {
      var init := es[..|es| - 1];
      WalkFieldDict(st, init, column);
    }
  }

  /**
    * The record `ParseToFields` builds: every seeded column is present, a
    * column holds the value of the last field element that writes it, and a
    * seeded column nothing writes keeps its seed (`NA`, or a blank for the
    * free-form notes); no other column is present.
    */
  lemma ParsedColumn(doc: Document, column: string)
    requires Parse(doc).Success?
    ensures var d := Parse(doc).value.fieldDict;
      && (column in d <==> column in SeededColumns || LastWrite(doc.elements, column).Some?)
      && (column in d ==> d[column] == LastWrite(doc.elements, column).GetOr(SeedValue(column)))
  {
    WalkFieldDict(Seed(doc.attrs["project"], doc.attrs["label"], doc.attrs["ID"]), doc.elements, column);
  }

  /** The element loop never removes a column: the keys only grow. */
  lemma WalkKeepsKeys(st: Parsed, es: seq<Element>)
    requires Walk(st, es).Success?
    ensures st.fieldDict.Keys <= Walk(st, es).value.fieldDict.Keys
  {
    forall column | column in st.fieldDict
      ensures column in Walk(st, es).value.fieldDict
    {
      WalkFieldDict(st, es, column);
    }
  }

  /** The element loop leaves the root attributes and the session label as they were. */
  lemma {:induction false} WalkKeepsRoot(st: Parsed, es: seq<Element>)
    requires Walk(st, es).Success?
    ensures var s := Walk(st, es).value;
      s.project == st.project && s.reviewLabel == st.reviewLabel &&
      s.imageReviewID == st.imageReviewID && s.sessionLabel == st.sessionLabel
  {
    if es != [] {
      WalkKeepsRoot(st, es[..|es| - 1]);
    }
  }

  /**
    * A successful parse carries the root's `project`, `label` and `ID`, and
    * the session label is the first five characters of the label.
    */
  lemma ParsedRoot(doc: Document)
    requires Parse(doc).Success?
    ensures var p := Parse(doc).value;
      && p.project == doc.attrs["project"] && p.reviewLabel == doc.attrs["label"]
      && p.imageReviewID == doc.attrs["ID"] && p.sessionLabel == SessionLabel(doc.attrs["label"])
      && |p.sessionLabel| <= 5 && p.sessionLabel <= p.reviewLabel
  {
    WalkKeepsRoot(Seed(doc.attrs["project"], doc.attrs["label"], doc.attrs["ID"]), doc.elements);
  }

  /** `xnatSubjectID` is not one of the seeded columns. */
  lemma SubjectIdNotSeeded()
    ensures "xnatSubjectID" !in SeededColumns
  {
  }

  /** Every seeded column is in the record a successful parse builds. */
  lemma ParsedHasSeededColumns(doc: Document)
    requires Parse(doc).Success?
    ensures forall c :: c in SeededColumns ==> c in Parse(doc).value.fieldDict
  {
    var seed := Seed(doc.attrs["project"], doc.attrs["label"], doc.attrs["ID"]);
    WalkKeepsKeys(seed, doc.elements);
    assert forall c :: c in SeededColumns ==> c in seed.fieldDict;
  }

  lemma NotesColumnLowerCase()
    ensures forall x :: x in NotesColumn ==> !IsUpper(x)
  {
  }

  /** A field element only ever writes a lower-case column name. */
  lemma WrittenColumnLowerCase(e: Element)
    requires Written(e).Some?
    ensures forall x :: x in Written(e).value.0 ==> !IsUpper(x)
  {
    if "value" in e.attrs {
      MakeSQLColNameShape(e.attrs["name"]);
    } else {
      NotesColumnLowerCase();
    }
  }

  /**
    * A column of the record whose name has an upper-case letter, such as
    * the seeded `xnatSessionID`, is written by no field element: it keeps
    * its seed `NA`.
    */
  lemma MixedCaseColumnKeepsSeed(doc: Document, column: string, upper: char)
    requires Parse(doc).Success? && column in Parse(doc).value.fieldDict
    requires upper in column && IsUpper(upper)
    ensures Parse(doc).value.fieldDict[column] == NotAvailable
  {
    MixedCaseNeverWritten(doc.elements, column);
    assert column != NotesColumn by {
      NotesColumnLowerCase();
    }
    ParsedColumn(doc, column);
  }

  /** In particular the seeded `xnatSessionID` column always keeps `NA`. */
  lemma SessionIdKeepsSeed(doc: Document)
    requires Parse(doc).Success?
    ensures "xnatSessionID" in Parse(doc).value.fieldDict
    ensures Parse(doc).value.fieldDict["xnatSessionID"] == NotAvailable
  {
    ParsedHasSeededColumns(doc);
    assert SeededColumns[18] == "xnatSessionID";
    assert "xnatSessionID"[4] == 'S';
    MixedCaseColumnKeepsSeed(doc, "xnatSessionID", 'S');
  }

  lemma MixedCaseNeverWritten(es: seq<Element>, column: string)
    requires exists x :: x in column && IsUpper(x)
    ensures LastWrite(es, column).None?
  {
    forall i | 0 <= i < |es|
      ensures !WritesColumn(es[i], column)
    {
      if Written(es[i]).Some? {
        WrittenColumnLowerCase(es[i]);
      }
    }
    LastWriteNone(es, column);
  }

  /** A field without a value, other than the free-form notes, leaves the record as it was. */
  lemma ValuelessFieldIgnored(st: Parsed, es: seq<Element>, e: Element)
    requires Walk(st, es).Success?
    requires e.tag == FieldTag && "name" in e.attrs && "value" !in e.attrs
    requires e.attrs["name"] != FreeFormNotes
    ensures Walk(st, es + [e]).Success?
    ensures Walk(st, es + [e]).value.fieldDict == Walk(st, es).value.fieldDict
  {
    assert (es + [e])[..|es|] == es;
  }

  /** A free-form-notes field without a value sets the notes to a single blank. */
  lemma ValuelessNotesBlank(st: Parsed, es: seq<Element>, e: Element)
    requires Walk(st, es).Success?
    requires e.tag == FieldTag && "name" in e.attrs && "value" !in e.attrs
    requires e.attrs["name"] == FreeFormNotes
    ensures Walk(st, es + [e]).Success?
    ensures Walk(st, es + [e]).value.fieldDict[NotesColumn] == BlankNote
  {
    assert (es + [e])[..|es|] == es;
  }

  /** The loop fails exactly when some field element has no name, and then at the first one. */
  lemma {:induction false} WalkFailure(st: Parsed, es: seq<Element>)
    ensures Walk(st, es).Failure? <==>
      exists i :: 0 <= i < |es| && es[i].tag == FieldTag && "name" !in es[i].attrs
    ensures Walk(st, es).Failure? ==> Walk(st, es).error.FieldWithoutName?
    ensures Walk(st, es).Failure? && Walk(st, es).error.FieldWithoutName? ==>
      var i := Walk(st, es).error.index;
      && i < |es| && es[i].tag == FieldTag && "name" !in es[i].attrs
      && forall j :: 0 <= j < i ==> !(es[j].tag == FieldTag && "name" !in es[j].attrs)
  {
    if es != [] {
      var init := es[..|es| - 1];
      WalkFailure(st, init);
      assert forall i :: 0 <= i < |init| ==> init[i] == es[i];
    }
  }

  /** The constructor raises on a missing root attribute, naming the first of project, label, ID. */
  lemma ParseMissingAttribute(doc: Document)
    ensures (Parse(doc).Failure? && Parse(doc).error.MissingRootAttribute?) <==>
      !("project" in doc.attrs && "label" in doc.attrs && "ID" in doc.attrs)
    ensures Parse(doc).Failure? && Parse(doc).error.MissingRootAttribute? ==>
      Parse(doc).error.name !in doc.attrs
  {
    if "project" in doc.attrs && "label" in doc.attrs && "ID" in doc.attrs {
      WalkFailure(Seed(doc.attrs["project"], doc.attrs["label"], doc.attrs["ID"]), doc.elements);
    }
  }

  /** The state field that the element with tag `tag` is copied into. */
  function Captured(st: Parsed, tag: string): Option<string>
    requires tag in {DateTag, TimeTag, SeriesNumberTag, ImageSessionIdTag}
  {
    if tag == DateTag then st.date
    else if tag == TimeTag then st.time
    else if tag == SeriesNumberTag then st.seriesNumber
    else st.sessionID
  }

  /** The text of the last element tagged `tag`, if there is one. */
  function LastText(es: seq<Element>, tag: string): Option<Option<string>> {
    if es == [] then None
    else if es[|es| - 1].tag == tag then Some(es[|es| - 1].text)
    else LastText(es[..|es| - 1], tag)
  }

  /**
    * The date, time, series number and session ID are those of the last
    * element with that tag, and stay as they were when there is none.
    */
  lemma {:induction false} WalkCaptures(st: Parsed, es: seq<Element>, tag: string)
    requires tag in {DateTag, TimeTag, SeriesNumberTag, ImageSessionIdTag}
    requires Walk(st, es).Success?
    ensures Captured(Walk(st, es).value, tag) == LastText(es, tag).GetOr(Captured(st, tag))
  {
    if es != [] {
      WalkCaptures(st, es[..|es| - 1], tag);
    }
  }

  /** A failure on a prefix of the elements is the failure of the whole walk. */
  lemma {:induction false} WalkFailurePersists(st: Parsed, es: seq<Element>, k: nat)
    requires k <= |es|
    requires Walk(st, es[..k]).Failure?
    ensures Walk(st, es) == Walk(st, es[..k])
    decreases |es| - k
  {
    if k < |es| {
      assert es[..k + 1][..k] == es[..k];
      WalkFailurePersists(st, es, k + 1);
    } else {
      assert es[..k] == es;
    }
  }

  /** The walk over one more element is the walk so far, then that element's step. */
  lemma WalkPrefixStep(st: Parsed, es: seq<Element>, i: nat, s: Parsed)
    requires i < |es| && Walk(st, es[..i]) == Success(s)
    ensures Walk(st, es[..i + 1]) == Step(s, es[i], i)
  {
    assert es[..i + 1][..i] == es[..i];
  }

  /** A `ParseToFields` object: the values read from one document. */
  class ParseToFields {
    var project: string
    var reviewLabel: string
    var imageReviewID: string
    var sessionLabel: string
    var seriesNumber: Option<string>
    var date: Option<string>
    var time: Option<string>
    var sessionID: Option<string>
    var fieldDict: map<string, string>
    var sqlColNames: seq<string>

    function Snapshot(): Parsed
      reads this
    {
      Parsed(project, reviewLabel, imageReviewID, sessionLabel, seriesNumber, date, time, sessionID,
             fieldDict, sqlColNames)
    }

    /** The attribute defaults and the seeded record, before the document is read. */
    constructor ()
      ensures Snapshot() == Parsed("", "", "", "", Some(""), Some(""), Some(""), Some(""), SeededRecord(), [])
    {
      project, reviewLabel, imageReviewID, sessionLabel := "", "", "", "";
      seriesNumber, date, time, sessionID := Some(""), Some(""), Some(""), Some("");
      fieldDict := SeededRecord();
      sqlColNames := [];
    }

    /**
      * One pass of the element loop, for an element that does not raise: a
      * named field appends its column name and writes its value (or the
      * blank note), and a date, time, series number or session element
      * captures its text.
      */
    method ReadElement(e: Element, index: nat)
      requires e.tag == FieldTag ==> "name" in e.attrs
      modifies this
      ensures Step(old(Snapshot()), e, index) == Success(Snapshot())
    {
      if e.tag == FieldTag {
        var name := e.attrs["name"];
        sqlColNames := sqlColNames + [MakeSQLColName(name)];
        if "value" in e.attrs {
          fieldDict := fieldDict[MakeSQLColName(name) := e.attrs["value"]];
        } else if name == FreeFormNotes {
          // makeSQLColName(name) is NotesColumn here (FreeFormNotesColumn)
          fieldDict := fieldDict[NotesColumn := BlankNote];
        }
      } else if e.tag == DateTag {
        date := e.text;
      } else if e.tag == TimeTag {
        time := e.text;
      } else if e.tag == SeriesNumberTag {
        seriesNumber := e.text;
      } else if e.tag == ImageSessionIdTag {
        sessionID := e.text;
      }
    }

    /**
      * `ParseToFields(xmlString)`: reads the root attributes, then walks the
      * elements in document order, updating the record and the captured
      * texts, or fails with the `KeyError` the constructor raises.
      */
    static method FromXml(doc: Document) returns (r: Result<ParseToFields, ParseError>)
      ensures r.Failure? <==> Parse(doc).Failure?
      ensures r.Failure? ==> r.error == Parse(doc).error
      ensures r.Success? ==> fresh(r.value) && r.value.Snapshot() == Parse(doc).value
    {
      var p := new ParseToFields();
      if "project" !in doc.attrs {
        return Failure(MissingRootAttribute("project"));
      }
      p.project := doc.attrs["project"];
      if "label" !in doc.attrs {
        return Failure(MissingRootAttribute("label"));
      }
      p.reviewLabel := doc.attrs["label"];
      if "ID" !in doc.attrs {
        return Failure(MissingRootAttribute("ID"));
      }
      p.imageReviewID := doc.attrs["ID"];
      p.sessionLabel := SessionLabel(p.reviewLabel);
      ghost var seed := Seed(p.project, p.reviewLabel, p.imageReviewID);
      var es := doc.elements;
      var i := 0;
      while i < |es|
        invariant 0 <= i <= |es|
        invariant Walk(seed, es[..i]) == Success(p.Snapshot())
      {
        var e := es[i];
        WalkPrefixStep(seed, es, i, p.Snapshot());
        if e.tag == FieldTag && "name" !in e.attrs {
          WalkFailurePersists(seed, es, i + 1);
          return Failure(FieldWithoutName(i));
        }
        p.ReadElement(e, i);
        i := i + 1;
      }
      assert es[..i] == es;
      return Success(p);
    }
  }
}
