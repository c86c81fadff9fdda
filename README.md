# ImageEval database builder — a Dafny model

The repository has two Python 2 scripts. Each builds an SQLite table `ImageEval`, one row per
image-evaluation XML document from an XNAT server. Each row holds the document's root
attributes, its `field` elements under normalised column names, and identifiers derived from the
image file name and the experiment listing. The scripts then read the table back for a CSV export
and for box-plot inputs.

- `createImageEvalDB.py` fetches each evaluation as it walks the listing.
- `createImageEvalDB_downloadXMLfiles.py` first saves every evaluation under a file name
  `Project-Subject-ID-Label.xml`. It then reads the directory back and recovers the subject ID from
  that name.

The two scripts share most of their logic, and one model covers both:

| module | file | what it holds |
|---|---|---|
| `Wrappers` | wrappers.dfy | `Option` and `Result` |
| `Text` | text.dfy | Python's byte-string `strip`, `split`, `replace(c, "")` and ASCII `lower` on `seq<char>`, with their laws, and the test for ASCII text |
| `Decimal` | decimal.dfy | `str(int)` and `int(str)` and their round trip |
| `FieldRecords` | field_records.dfy | the 26 seeded columns, `makeSQLColName`, and `ParseToFields` as a pure walk `Parse` plus a class whose `FromXml` loop is proved equal to it |
| `FileNames` | file_names.dfy | the image-file pattern, the listing split, `_getScanInfo`, and the saved XML file name with its pattern |
| `SqlInsert` | sql_insert.dfy | the INSERT builder loop, and a decoder of the statement it builds |
| `Ingest` | ingest.dfy | row assembly, the table as a class, both `fillDBFromXMLs` loops, the download directory, both scripts' main sequences |
| `SessionExport` | session_export.dfy | the `printInfoToCSVfile` scan, as written and corrected, against a run-partition specification |
| `Plots` | plots.dfy | the score counter, `MakeEvalList`, the six-type column alignment, and the two query builders |

How the outside world is represented:

- An XML document is a `Document`: the root attributes and the flat element sequence that
  `getiterator()` yields in document order.
- Fetching a URI is a function `fetch: string -> Document`.
- The download directory is a sequence of (name, document) pairs. `Ingest.Directory` computes it from the files saved in turn, a later file replacing an earlier one of the same name.
- The table is an `ImageEvalDB` object holding a sequence of rows (column → text maps).
  `Execute` decodes the INSERT text it is given with `SqlInsert.ParseInsert` and appends the row it
  describes. `Commit` records the committed rows.
- The order of `dict.keys()` is left open: `Ingest.DictKeys` picks any order that lists every key
  once.
- Query results are functions from query text to rows. The plotting code receives them as
  parameters.

## Model

| member | source | states |
|---|---|---|
| Text.Strip | createImageEvalDB.py:126 | `strip()`: the result has no surrounding whitespace and is the middle slice of the input between its whitespace runs |
| Text.Split | createImageEvalDB.py:126 | `split(sep)`: the parts contain no separator and joining them gives back the input |
| Text.SplitJoin | createImageEvalDB.py:126 | splitting a join of separator-free parts gives the parts back |
| Text.SplitLength | createImageEvalDB.py:66 | `split` yields one more part than there are separators |
| Text.RemoveCharSpec | createImageEvalDB.py:312 | `replace(c, "")` removes exactly the occurrences of `c` and keeps every other character |
| Text.Lower | createImageEvalDB.py:312 | `lower()` maps each character to its lower-case form, keeps the length, and leaves no upper-case letter |
| Decimal.IntToString | createImageEvalDB.py:373 | `str(n)`: non-empty decimal digits, with a leading `-` exactly when `n < 0` |
| Decimal.IntRoundTrip | createImageEvalDB_downloadXMLfiles.py:287 | `int(str(n)) == n` for every integer |
| FieldRecords.SeededRecordSize | createImageEvalDB.py:253-278 | the seeded record has exactly 26 columns |
| FieldRecords.ParsedHasSeededColumns | createImageEvalDB_downloadXMLfiles.py:367-392 | after parsing, all 26 seeded columns are still present |
| FieldRecords.ParsedColumn | createImageEvalDB.py:253-297 | a column is in the parsed record iff it is seeded or some field writes it; its value is the last write, else the seed (`'NA'`, or `' '` for `freeformnotes`) |
| FieldRecords.LastWriteIsLast | createImageEvalDB.py:287-292 | the last write names an element that writes the column, with no later element writing it |
| FieldRecords.LastWriteNone | createImageEvalDB.py:287-292 | there is no last write iff no element writes the column |
| FieldRecords.SessionIdKeepsSeed | createImageEvalDB.py:271 | the parsed `xnatSessionID` column is always `'NA'` |
| FieldRecords.WalkFieldDict | createImageEvalDB.py:287-297 | walking from any state keeps every key and sets each written column to its last written value |
| FieldRecords.WalkKeepsKeys | createImageEvalDB_downloadXMLfiles.py:400-410 | the set of keys never shrinks during the walk |
| FieldRecords.ValuelessFieldIgnored | createImageEvalDB.py:291-297 | a field without `value`, other than Free Form Notes, leaves the record unchanged |
| FieldRecords.ValuelessNotesBlank | createImageEvalDB.py:294-295 | a valueless `Free Form Notes` field sets `freeformnotes` to `' '` |
| FieldRecords.WalkCaptures | createImageEvalDB.py:298-309 | the captured date, time, series number and session ID are the texts of the last such element, else the initial `""` |
| FieldRecords.WalkFailure | createImageEvalDB.py:289-290 | the walk fails iff some field element has no `name`, and the error gives the index of such an element |
| FieldRecords.ParseMissingAttribute | createImageEvalDB.py:283-285 | parsing fails with a missing-attribute error iff `project`, `label` or `ID` is missing, and the error names an attribute that is missing |
| FieldRecords.ParsedRoot | createImageEvalDB.py:283-286 | the root attributes are copied; the session label is the first `min(5, len(label))` characters of the label |
| FieldRecords.MakeSQLColNameShape | createImageEvalDB_downloadXMLfiles.py:424-426 | a column name has no blank, no `/` and no upper-case letter, is no longer than the field name, and keeps every other character |
| FieldRecords.MakeSQLColNameIdempotent | createImageEvalDB.py:311-313 | normalising a column name twice changes nothing |
| FieldRecords.FreeFormNotesColumn | createImageEvalDB.py:294-295 | `Free Form Notes` normalises to `freeformnotes` |
| FieldRecords.MixedCaseColumnKeepsSeed | createImageEvalDB.py:270-271 | a seeded column with an upper-case letter (`xnatSessionID`, `xnatImageReviewLabel`) can never be written by a field, so the parse leaves it `'NA'` |
| FieldRecords.SubjectIdNotSeeded | createImageEvalDB.py:253-278 | `xnatSubjectID` is not among the seeded columns |
| FieldRecords.ParseToFields.constructor | createImageEvalDB.py:241-279 | the attribute defaults and the seeded record before the document is read |
| FieldRecords.ParseToFields.ReadElement | createImageEvalDB.py:288-309 | one pass over an element that does not raise leaves the object in the state one `Step` of the walk gives |
| FieldRecords.ParseToFields.FromXml | createImageEvalDB.py:241-309 | the element loop that updates the object's fields ends in exactly the state `Parse` describes, or fails with the same error |
| FileNames.MatchImageFileIsPattern | createImageEvalDB.py:150-151 | the split-based matcher succeeds iff the regex `([^_]*)_[^_]*_([^_]*)_[^-]*` matches, and returns its two groups |
| FileNames.FindSessionAndScanTypeOfPath | createImageEvalDB.py:143-158 | for `dir/file`, the result is the first and third `_` parts of `file` when it has at least four, else `NOT_FOUND` twice; the directory is ignored |
| FileNames.FindSessionAndScanTypeOfName | createImageEvalDB_downloadXMLfiles.py:185-196 | the same for a bare file name |
| FileNames.LastComponent | createImageEvalDB.py:148-149 | only the last `/` component of the trimmed path decides the result |
| FileNames.ImageNameGroups | createImageEvalDB.py:143-158 | a bare name `g1_mid_g2_rest` without `/` or surrounding whitespace, and with no `_` in `g1`, `mid` or `g2`, gives subject `g1` and scan type `g2` |
| FileNames.ScanTypeExample | createImageEvalDB_downloadXMLfiles.py:185-196 | `S1_2_T1-30_x` gives `("S1", "T1-30")` |
| FileNames.NoUnderscoreNotFound | createImageEvalDB.py:156-158 | a name without `_` gives `NOT_FOUND` twice rather than raising |
| FileNames.ListingLinesShape | createImageEvalDB_downloadXMLfiles.py:80-81 | the listing lines contain no `"` and no newline, number one fewer than the lines of the cleaned text, and are what follows the header line |
| FileNames.ListingRoundTrip | createImageEvalDB.py:66-67 | joining a header and quote-free lines and parsing the result gives the lines back |
| FileNames.GetScanInfo | createImageEvalDB.py:124-129 | fields 2 and 4 of the comma-split line, or the index that raises `IndexError` when there are fewer than five fields |
| FileNames.GetScanInfoRoundTrip | createImageEvalDB.py:124-129 | for a line joined from comma-free fields, the result is fields 2 and 4 |
| FileNames.SavedXmlFileName | createImageEvalDB_downloadXMLfiles.py:113-120 | the saved name is `Project-Subject-ID-Label.xml` built from fields 3, 2, 0, 1, or the failing index for a short line |
| FileNames.MatchXmlFileNameIsPattern | createImageEvalDB_downloadXMLfiles.py:155-158 | the split-based matcher succeeds iff the regex `([^-]*)-([^-]*)-([^-]*)-([^-]*).xml.*` matches, and returns group 2 |
| FileNames.XmlFileNameRoundTrip | createImageEvalDB_downloadXMLfiles.py:120 | for dash-free parts, matching the built name recovers the subject ID |
| FileNames.XmlFileNameNeverWrongSubject | createImageEvalDB_downloadXMLfiles.py:155-158 | with a dash-free project and subject, the match yields the subject ID or nothing, never another value |
| FileNames.DashedLabelFails | createImageEvalDB_downloadXMLfiles.py:155-160 | a label `a-b` with no `x` in `a` or `b` makes the match fail, so the row gets no `xnatSubjectID` (the unescaped `.` lets a label such as `a-xml` match) |
| FileNames.XmlFileNameHasExtension | createImageEvalDB_downloadXMLfiles.py:131-134 | a saved name has the `.xml` extension the directory scan selects |
| SqlInsert.DoubleQuotesLength | createImageEvalDB.py:172 | doubling quotes adds one character per `'` |
| SqlInsert.ReadQuotedRoundTrip | createImageEvalDB_downloadXMLfiles.py:209-210 | reading a quoted literal undoes the doubling: the original value and the rest of the text come back |
| SqlInsert.GetSQLiteCommand | createImageEvalDB.py:160-178 | the accumulating loop with its `[:-2]` trims builds `INSERT INTO ImageEval (cols) VALUES ('v', …);`, column i paired with the quoted value of key i |
| SqlInsert.TrimmedIsJoin | createImageEvalDB_downloadXMLfiles.py:211-212 | trimming the trailing `", "` from the accumulated text gives the comma-separated join |
| SqlInsert.InsertRoundTrip | createImageEvalDB_downloadXMLfiles.py:203-214 | for plain column names (non-empty, no `,` or `)`), the statement decodes to the same column list and value list, of equal length |
| SqlInsert.InsertStoresRecord | createImageEvalDB.py:166-177 | for plain column names (non-empty, no `,` or `)`), the statement built from a record in any key order decodes to exactly that record |
| SqlInsert.ZipValuesOf | createImageEvalDB.py:169-173 | pairing the keys with their looked-up values gives each key its own value |
| Ingest.ImageEvalDB.constructor | createImageEvalDB.py:84-92 | the table starts empty |
| Ingest.ImageEvalDB.CreateDataBase | createImageEvalDB_downloadXMLfiles.py:83-103 | an existing table is dropped and an empty one created |
| Ingest.ImageEvalDB.Execute | createImageEvalDB.py:118 | a statement that decodes appends exactly its row; one that does not changes nothing; commits are untouched |
| Ingest.ImageEvalDB.Commit | createImageEvalDB.py:120 | the committed rows become the current rows |
| Ingest.DictKeys | createImageEvalDB.py:166 | every key of the record, each once, in an unspecified order |
| Ingest.InsertAndCommit | createImageEvalDB.py:116-120 | one insert and one commit: one row appended holding the record, or, for a record the decoder refuses, nothing changed |
| Ingest.SubjectIDCommutes | createImageEvalDB.py:104-114 | setting `xnatSubjectID` between the scan type and the later overlay columns (listing script) or after the whole overlay (download script) gives the same row |
| Ingest.RecordOfParts | createImageEvalDB.py:101-114 | a parsed document always has `imagefile`, and its row is the overlay of the parse |
| Ingest.RecordDerivedColumns | createImageEvalDB.py:104-113 | in each row, `subject` and `scantype` come from the image file name, `session` from `label[0:5]`, `project`, label and ID from the root, and `xnatSubjectID` is present iff one was supplied |
| Ingest.RecordTexts | createImageEvalDB.py:108-114 | the row's `date`, `time` and `seriesnumber` are the last captured texts (default `""`); an element with no text makes the row fail, as the INSERT builder's `replace` on `None` does |
| Ingest.RecordParsedColumn | createImageEvalDB_downloadXMLfiles.py:144-153 | every other column keeps its parsed value: seeded or last written |
| Ingest.RecordHasSeededColumns | createImageEvalDB.py:253-278 | every row has all 26 seeded columns |
| Ingest.RecordSessionIdUnset | createImageEvalDB.py:307-308 | `xnatSessionID` is always `'NA'`: the captured session ID is never copied into the row |
| Ingest.ListingRecordSubject | createImageEvalDB.py:98-107 | for a line with five fields, the row's `xnatSubjectID` is field 2 |
| Ingest.RecordsForLines | createImageEvalDB.py:98-101 | one record per listing line |
| Ingest.LoadLine | createImageEvalDB.py:98-120 | one iteration: the line's record is inserted and committed, or the failure stops the loop; a record with a column name or document text outside ASCII fails with `NonAsciiText`, as `str.format` raises in the statement builder |
| Ingest.FillDBFromListing | createImageEvalDB.py:94-122 | one row per line in order, each the line's record, stopping at the first failure (a short line, a missing attribute or text, text outside ASCII, a refused statement); committed after each |
| Ingest.XmlFilesConcat | createImageEvalDB_downloadXMLfiles.py:130-134 | selecting `.xml` files distributes over concatenation |
| Ingest.LoadFile | createImageEvalDB_downloadXMLfiles.py:137-174 | one `.xml` file: its record is inserted and committed, or the failure stops the loop |
| Ingest.FillDBFromXMLs | createImageEvalDB_downloadXMLfiles.py:126-178 | one row per `.xml` file in the directory's order, other files skipped, stopping at the first failure |
| Ingest.RunListingScript | createImageEvalDB.py:33-36 | from an empty table, the rows are those of the listing lines' records up to the first failure, and a run without failure leaves exactly one row per listing line |
| Ingest.DownloadsShape | createImageEvalDB_downloadXMLfiles.py:111-122 | the downloads succeed iff every line has five fields; file i is line i's document under its saved name |
| Ingest.DirectoryLastSave | createImageEvalDB_downloadXMLfiles.py:120-127 | the download directory lists each name once, every name saved is in it, and its file holds the evaluation saved under that name last |
| Ingest.DirectoryKeepsEveryFile | createImageEvalDB_downloadXMLfiles.py:120-127 | the directory holds every saved file iff no two were saved under one name; otherwise it holds fewer files than were saved |
| Ingest.RunDownloadScript | createImageEvalDB_downloadXMLfiles.py:36-43 | a short listing line stops the run before any insert; otherwise the table is loaded from the download directory, where a later file overwrites an earlier one of the same name |
| Ingest.NonAsciiFieldAborts | createImageEvalDB.py:166-173 | a field value outside ASCII makes the listing script's iteration fail with `NonAsciiText`, while the downloading script, building with `+`, gets a record from the same evaluation under any file name |
| Ingest.LineAgrees | createImageEvalDB_downloadXMLfiles.py:120-158 | for a line with dash-free fields, the listing script's record is the saved file's record as its `str.format` builder takes it: the same record, or `NonAsciiText` |
| Ingest.BothScriptsAgree | createImageEvalDB_downloadXMLfiles.py:111-178 | over a listing of such lines with distinct file names, the directory holds every saved file, and the scripts build the same records in the same order, except that the listing script fails with `NonAsciiText` where the text is not ASCII |
| Ingest.RepeatedNameLoadedOnce | createImageEvalDB_downloadXMLfiles.py:111-127 | when two such lines give the same file name, the second download overwrites the first and the downloading script builds fewer records than the listing script |
| SessionExport.Groups | createImageEvalDB.py:215-227 | the groups the scan builds, one per run of equal sessions |
| SessionExport.RunsPartition | createImageEvalDB.py:215 | the runs concatenate to the rows; each is non-empty with one session; adjacent runs differ in session, whatever the project and subject |
| SessionExport.GroupsAreRuns | createImageEvalDB.py:215-224 | there is one group per run; its files map each scan type of the run to that type's files in row order |
| SessionExport.FilesOfSnoc | createImageEvalDB.py:220-224 | a row of a known scan type appends its file to that type's list; a new type starts a one-file list |
| SessionExport.AdjacentGroupsDiffer | createImageEvalDB.py:215-219 | adjacent groups have different sessions |
| SessionExport.OneSessionOneGroup | createImageEvalDB.py:215 | rows of one session form a single group |
| SessionExport.ScanGroups | createImageEvalDB.py:209-227 | after the scan, the last line is the last group and every earlier group has been written |
| SessionExport.ScanRows | createImageEvalDB.py:206-227 | the loop over the rows ends in the state of the scan |
| SessionExport.PrintInfoToCSVfile | createImageEvalDB.py:198-227 | as written: the header, then every group except the last |
| SessionExport.PrintInfoToCSVfileFlushed | createImageEvalDB.py:198-227 | corrected: the header, then every group |
| SessionExport.LastGroupDropped | createImageEvalDB.py:218-219 | for non-empty input, k runs give k-1 lines; the corrected export is the as-written one plus the last group |
| SessionExport.OneSessionWritesHeaderOnly | createImageEvalDB.py:218-219 | rows of a single session write only the header |
| SessionExport.TwoSessionsExample | createImageEvalDB.py:209-227 | two sessions of four rows: the first line collects two files of one type and one of another; the second group is lost as written |
| Plots.Above5 | createImageEvalDB.py:338-340 | a score is kept iff it is above 5; no more are kept than there are scores |
| Plots.AllAbove5 | createImageEvalDB.py:336-341 | the count equals the length iff every score is above 5 |
| Plots.NoneAbove5 | createImageEvalDB.py:336-341 | the count is 0 iff no score is above 5 |
| Plots.FindEvalsGreaterThan5 | createImageEvalDB_downloadXMLfiles.py:330-335 | the loop counts the scores above 5; the count is between 0 and the number of scores |
| Plots.EvalListMeaning | createImageEvalDB_downloadXMLfiles.py:285-289 | the list converts iff every text parses, and then its values agree with the texts position by position |
| Plots.EvalListError | createImageEvalDB_downloadXMLfiles.py:286-287 | when conversion fails, the error is the position of the first text that does not parse |
| Plots.EvalListOfScores | createImageEvalDB_downloadXMLfiles.py:470-479 | converting the decimal texts of scores gives the scores back |
| Plots.MakeEvalList | createImageEvalDB_downloadXMLfiles.py:280-289 | the appending loop computes the conversion or stops where `int()` raises |
| Plots.DecodeXLabel | createImageEvalDB.py:372-373 | a present type's label reads back as the type, the count above 5 and the total |
| Plots.DecodeEmptyLabel | createImageEvalDB.py:376 | an absent type's label reads back as the type with no scores |
| Plots.LabelsDiffer | createImageEvalDB.py:373-376 | a present type's label never equals the absent-type label |
| Plots.ColumnTally | createImageEvalDB.py:367-376 | a column is the type's scores and count label when present, else `[]` and the `(0)` label |
| Plots.AlignColumns | createImageEvalDB_downloadXMLfiles.py:305-316 | one column per listed type, in list order |
| Plots.SiteColumns | createImageEvalDB_downloadXMLfiles.py:300-316 | six columns aligned with the fixed scan-type list |
| Plots.LookUpColumns | createImageEvalDB_downloadXMLfiles.py:496-500 | succeeds iff every listed type is present, with the aligned columns; otherwise fails with the first missing type |
| Plots.MakeWhiskerPlot | createImageEvalDB_downloadXMLfiles.py:488-500 | the same over the fixed list: `KeyError` on the first of the six types missing from the dictionary |
| Plots.Query1RoundTrip | createImageEvalDB.py:419-424 | the scan-type query has a `project` filter exactly when a site is given, and it names that site |
| Plots.Query2RoundTrip | createImageEvalDB.py:426-431 | the score query filters on the scan type, and on `project` exactly when a site is given (for a site without `'`) |
| Plots.FetchColumns | createImageEvalDB.py:367-376 | the loop builds one column per listed type from the fetched scores |
| Plots.GetEvalScoresAndXticks | createImageEvalDB.py:360-377 | six columns and labels aligned with the fixed list, built from the site's scan types and their scores, and the fixed list itself |

## Left out

- Network and file I/O: `urllib.urlretrieve`, `urlopen`, reading and removing files, `os.makedirs`, the REST and XNAT URL strings. The listing text and the documents are inputs; `fetch` stands for "retrieve, save, read back".
- XML parsing (`et.fromstring`, `getiterator`, namespaces): a document is its root attributes and its flat element sequence.
- SQLite itself. The model does not cover the `CREATE TABLE` column types and affinity, rejection of unknown columns, or what `execute` raises. The statement decoder is stricter than SQLite: it reads a column name only when it is non-empty and contains no `,` or `)`.
- Ingest.InsertAndCommit: that the stored row equals the record is stated only for plain column names (`Stored`). For other names it states only what the decoder yields.
- `getImageFileInfoFromDB`: the `WHERE overallqaassessment > 5` filter and the `ORDER BY` are SQL. The scan receives its rows already selected and ordered.
- `csv.writer` quoting and the file handle. Output lines are values.
- `printDBtoCSVfile` / `PrintDBtoCSVfile`: a plain dump of the table through `csv`.
- `sort(eval_dict)`: the numpy call on a dict is carried through as the dict itself.
- `os.listdir` order and files left over from earlier runs. `Ingest.Directory` lists the files in the order of their last save.
- Concurrency and the time measurements in `Main`, and the output of every `print`.
- FileNames.FindSessionAndScanTypeOfPath, FileNames.FindSessionAndScanTypeOfName, FileNames.NoUnderscoreNotFound: for an unmatched image file name outside ASCII, the `ERROR` print (createImageEvalDB.py:157, createImageEvalDB_downloadXMLfiles.py:195) raises `UnicodeEncodeError` in `str.format`. The model returns `NOT_FOUND` twice for every unmatched name.
- FieldRecords.ValuelessNotesBlank: for a review ID outside ASCII, the `ERROR` print (createImageEvalDB.py:296, createImageEvalDB_downloadXMLfiles.py:409) raises `UnicodeEncodeError` in `str.format`. The model blanks the notes for every review ID.
- SqlInsert.GetSQLiteCommand: builds a statement from any text. The listing script's `str.format` raises `UnicodeEncodeError` on a column name or document text outside ASCII (createImageEvalDB.py:170, 173). The model raises it just before the builder, as `Ingest.RecordForLine`'s `NonAsciiText`.
- Ingest.LoadLine: a record that both lacks a text and holds text outside ASCII fails with `MissingText`. The script raises whichever error its dictionary order reaches first.
- Ingest.RecordForFile: the downloading script concatenates the subject ID, bytes from the file name, with the document's text. A subject ID outside ASCII next to document text outside ASCII raises `UnicodeDecodeError` there, and the model does not capture it.
- Floating point: `CalculateProportions` and `float(row[0])` in `getEvalScores`. Scores are integers.
- `getListFromDB`, `_querySQLiteDB` and `getEvalScores` are modelled as the functions `scanTypesOf` and `scoresOf` from query text to results.
- `MakeBoxPlotForAllEvals.MakeEvalDict`, `MakePerSiteWhiskerPlots.MakeEvalDict` and the `AllEvals` holder are database reads. Their query texts are those of `GetQuery1` and `GetQuery2`.
- The per-site loop in `MakePerSiteWhiskerPlots` runs over numpy-sorted site keys; `SiteColumns` models one iteration.
- All matplotlib and pylab rendering: boxplot, ticks, titles, `savefig`, `PdfPages`.
- `_sql_col_names` is collected but never used, so it is carried through without properties.
- Non-ASCII case mapping and digits: `lower()` and `int()` are modelled for ASCII only.
- FileNames.FindSessionAndScanTypeOfName, FileNames.ImageNameGroups, FileNames.LastComponent: `Text.Strip` removes the whitespace of a byte string (space, `\t`, `\n`, `\r`, `\x0b`, `\x0c`). An `imagefile` value holding text outside ASCII is a unicode string, and its `strip()` (createImageEvalDB.py:148, createImageEvalDB_downloadXMLfiles.py:185) also removes further whitespace such as U+00A0, U+0085, U+2000 to U+200A, U+2028, U+2029 and U+3000. The model does not strip those, so for a name such as `\u00a0S1_2_T1_x` it gives the subject `\u00a0S1` where the script gives `S1`.
- Plots.Query2RoundTrip: stated only for a site name without `'`. The source formats the site unescaped, so a quote in it changes the query's meaning.
- Plots.PresentLabel: its contract is only that it builds the label. What the label says is proved once, in `DecodeXLabel`.
- The overlay of derived values onto `_fieldDict` is computed on a copy of the parsed record rather than by mutating the parsed object, because nothing reads the object afterwards.

## Findings

| source | as written | input that shows it | evidently intended | confidence | as-written member | corrected member |
|---|---|---|---|---|---|---|
| createImageEvalDB.py:209-227 | a session's line is written only when the next session begins, and nothing is written after the loop | any non-empty row list, e.g. one row: only the header is written | every session group is written, the last one after the loop | not executed | SessionExport.PrintInfoToCSVfile (SessionExport.LastGroupDropped, SessionExport.OneSessionWritesHeaderOnly) | SessionExport.PrintInfoToCSVfileFlushed |
