/**
  * The SQLite `INSERT` statement both scripts build from a field record
  * (`GetSQLiteCommand` / `_getSQLiteCommand`), and a reader for exactly the
  * statements of that shape, which stands for what SQLite takes out of one.
  */
module SqlInsert {
  import opened Wrappers
  import opened Text

  const InsertPrefix := "INSERT INTO ImageEval ("
  const ValuesInfix := ") VALUES ("
  const InsertSuffix := ");"
  const ListSep := ", "

  // ---------------------------------------------------------------------
  // Quoting
  // ---------------------------------------------------------------------

  /** `s.replace("'", "''")`: every single quote doubled. */
  function DoubleQuotes(s: string): string {
    if s == [] then []
    else if s[0] == '\'' then "''" + DoubleQuotes(s[1..])
    else [s[0]] + DoubleQuotes(s[1..])
  }

  /** Doubling adds one character per quote. */
  lemma {:induction false} DoubleQuotesLength(s: string)
    ensures |DoubleQuotes(s)| == |s| + Count(s, '\'')
  {
    if s != [] {
      DoubleQuotesLength(s[1..]);
    }
  }

  /**
    * The body of a quoted SQL literal read after its opening quote: the text
    * up to the first quote that is not doubled, each doubled quote read as
    * one, and what follows the closing quote; `None` when it is never closed.
    */
  function ReadQuoted(s: string): (r: Option<(string, string)>)
    ensures r.Some? ==> |r.value.1| < |s|
  {
    if s == [] then None
    else if s[0] == '\'' then
      if |s| >= 2 && s[1] == '\'' then
        match ReadQuoted(s[2..])
        case None => None
        case Some((v, rest)) => Some(("'" + v, rest))
      else Some(([], s[1..]))
    else
      match ReadQuoted(s[1..])
      case None => None
      case Some((v, rest)) => Some(([s[0]] + v, rest))
  }

  /**
    * Undoubling recovers the original: a doubled string followed by a
    * closing quote reads back as the string, with the text after the quote
    * left over, provided that text does not itself start with a quote.
    */
  lemma {:induction false} ReadQuotedRoundTrip(v: string, rest: string)
    requires rest == [] || rest[0] != '\''
    ensures ReadQuoted(DoubleQuotes(v) + "'" + rest) == Some((v, rest))
  {
    var s := DoubleQuotes(v) + "'" + rest;
    if v == [] {
      assert s == "'" + rest;
      assert s[1..] == rest;
    } else {
      var t := DoubleQuotes(v[1..]) + "'" + rest;
      ReadQuotedRoundTrip(v[1..], rest);
      if v[0] == '\'' {
        assert s == "''" + t;
        assert s[2..] == t;
        assert "'" + v[1..] == v;
      } else {
        assert s == [v[0]] + t;
        assert s[1..] == t;
        assert [v[0]] + v[1..] == v;
      }
    }
  }

  /** `"'" + value.replace("'", "''") + "'"`. */
  function Quoted(v: string): string {
    "'" + DoubleQuotes(v) + "'"
  }

  function QuotedValues(vals: seq<string>): (q: seq<string>)
    ensures |q| == |vals|
  {
    seq(|vals|, i requires 0 <= i < |vals| => Quoted(vals[i]))
  }

  // ---------------------------------------------------------------------
  // The statement
  // ---------------------------------------------------------------------

  /** The statement inserting `vals[i]` into column `cols[i]` for every `i`. */
  function InsertCommand(cols: seq<string>, vals: seq<string>): string {
    InsertPrefix + JoinWith(cols, ListSep) + ValuesInfix + JoinWith(QuotedValues(vals), ListSep) + InsertSuffix
  }

  /** `keys` lists every key of `m` once: what `EvalDict.keys()` returns, in some order. */
  ghost predicate KeyOrder(keys: seq<string>, m: map<string, string>) {
    && (forall k :: k in keys <==> k in m)
    && (forall i, j :: 0 <= i < j < |keys| ==> keys[i] != keys[j])
  }

  /** The values of `m` in the order of `keys`. */
  function ValuesOf(m: map<string, string>, keys: seq<string>): (vals: seq<string>)
    requires forall k :: k in keys ==> k in m
    ensures |vals| == |keys|
  {
    seq(|keys|, i requires 0 <= i < |keys| => m[keys[i]])
  }

  /** Each part followed by the separator, as the builder's loop accumulates them. */
  function Terminated(parts: seq<string>, sep: string): string {
    if parts == [] then []
    else Terminated(parts[..|parts| - 1], sep) + parts[|parts| - 1] + sep
  }

  /** `s[:-2]`: all but the last two characters, or nothing when there are fewer. */
  function DropLastTwo(s: string): string {
    if |s| >= 2 then s[..|s| - 2] else []
  }

  /** Appending one part to a join appends the separator and the part. */
  lemma {:induction false} JoinWithSnoc(parts: seq<string>, p: string, sep: string)
    requires parts != []
    ensures JoinWith(parts + [p], sep) == JoinWith(parts, sep) + sep + p
  {
    if |parts| == 1 {
      assert (parts + [p])[1..] == [p];
    } else {
      assert (parts + [p])[1..] == parts[1..] + [p];
      JoinWithSnoc(parts[1..], p, sep);
    }
  }

  /** The accumulated string is the join followed by one more separator. */
  lemma {:induction false} TerminatedJoin(parts: seq<string>, sep: string)
    requires parts != []
    ensures Terminated(parts, sep) == JoinWith(parts, sep) + sep
  {
    var init := parts[..|parts| - 1];
    var last := parts[|parts| - 1];
    if init != [] {
      TerminatedJoin(init, sep);
      JoinWithSnoc(init, last, sep);
      assert init + [last] == parts;
    } else {
      assert parts == [last];
    }
  }

  /** Trimming the last separator of `", "` off the accumulated string gives the join. */
  lemma TrimmedIsJoin(parts: seq<string>)
    ensures DropLastTwo(Terminated(parts, ListSep)) == JoinWith(parts, ListSep)
  {
    if parts != [] {
      TerminatedJoin(parts, ListSep);
      var j := JoinWith(parts, ListSep);
      assert (j + ListSep)[..|j + ListSep| - 2] == j;
    }
  }

  /**
    * `GetSQLiteCommand` / `_getSQLiteCommand`: walks the keys in dictionary
    * order, accumulating `"col, "` and `"'value', "` with quotes doubled,
    * trims the last two characters of each and wraps them in the statement.
    * Column `i` and value `i` come from the same key.
    */
  method GetSQLiteCommand(evalDict: map<string, string>, keys: seq<string>) returns (command: string)
    requires KeyOrder(keys, evalDict)
    ensures command == InsertCommand(keys, ValuesOf(evalDict, keys))
  {
    ghost var vals := ValuesOf(evalDict, keys);
    var colNamesString := "";
    var row := "";
    for i := 0 to |keys|
      invariant colNamesString == Terminated(keys[..i], ListSep)
      invariant row == Terminated(QuotedValues(vals[..i]), ListSep)
    {
      var col := keys[i];
      colNamesString := colNamesString + col + ", ";
      var evalInfo := DoubleQuotes(evalDict[col]);
      row := row + "'" + evalInfo + "', ";
      assert keys[..i + 1][..i] == keys[..i];
      assert QuotedValues(vals[..i + 1])[..i] == QuotedValues(vals[..i]);
      assert row == Terminated(QuotedValues(vals[..i]), ListSep) + Quoted(vals[i]) + ListSep;
    }
    assert keys[..|keys|] == keys && vals[..|keys|] == vals;
    TrimmedIsJoin(keys);
    TrimmedIsJoin(QuotedValues(vals));
    var trimmedColNameString := DropLastTwo(colNamesString);
    var trimmedRow := DropLastTwo(row);
    command := "INSERT INTO ImageEval (" + trimmedColNameString + ") VALUES (" + trimmedRow + ");";
  }

  // ---------------------------------------------------------------------
  // Reading a statement back
  // ---------------------------------------------------------------------

  /** A column name the reader can take back: not empty, no comma, no closing parenthesis. */
  predicate PlainColumn(c: string) {
    c != [] && ',' !in c && ')' !in c
  }

  /** The column names of a `", "`-separated list. */
  function ParseColumns(text: string): Option<seq<string>>
    decreases |text|
  {
    var k := Span(text, ',');
    if k == |text| then Some([text])
    else if k + 1 < |text| && text[k + 1] == ' ' then
      match ParseColumns(text[k + 2..])
      case None => None
      case Some(cs) => Some([text[..k]] + cs)
    else None
  }

  /** The values of a `", "`-separated list of quoted literals closed by `);`. */
  function ParseValues(text: string): Option<seq<string>>
    decreases |text|
  {
    if text == [] || text[0] != '\'' then None
    else
      match ReadQuoted(text[1..])
      case None => None
      case Some((v, after)) =>
        if after == InsertSuffix then Some([v])
        else if |after| >= 2 && after[..2] == ListSep then
          match ParseValues(after[2..])
          case None => None
          case Some(vs) => Some([v] + vs)
        else None
  }

  /**
    * The columns and values of an `INSERT INTO ImageEval (...) VALUES (...);`
    * statement of the builder's shape, paired by position; `None` for any
    * other text or when the counts differ.
    */
  function ParseInsert(command: string): Option<(seq<string>, seq<string>)> {
    if |command| < |InsertPrefix| || command[..|InsertPrefix|] != InsertPrefix then None
    else
      var body := command[|InsertPrefix|..];
      var k := Span(body, ')');
      var rest := body[k..];
      if |rest| < |ValuesInfix| || rest[..|ValuesInfix|] != ValuesInfix then None
      else
        var colText := body[..k];
        var valText := rest[|ValuesInfix|..];
        var cols := if colText == [] then Some([]) else ParseColumns(colText);
        var vals := if valText == InsertSuffix then Some([]) else ParseValues(valText);
        if cols.Some? && vals.Some? && |cols.value| == |vals.value| then Some((cols.value, vals.value))
        else None
  }

  /** Plain column names joined by `", "` read back as themselves. */
  lemma {:induction false} ParseColumnsRoundTrip(cols: seq<string>)
    requires |cols| >= 1
    requires forall c :: c in cols ==> PlainColumn(c)
    ensures ParseColumns(JoinWith(cols, ListSep)) == Some(cols)
  {
    assert cols[0] in cols;
    var text := JoinWith(cols, ListSep);
    if |cols| == 1 {
      assert text == cols[0];
      assert Span(text, ',') == |text|;
      assert cols == [text];
    } else {
      var rest := JoinWith(cols[1..], ListSep);
      assert text == cols[0] + [','] + (" " + rest);
      SpanAfter(cols[0], " " + rest, ',');
      var k := |cols[0]|;
      assert text[k + 1] == ' ';
      assert text[k + 2..] == rest;
      assert text[..k] == cols[0];
      assert forall c :: c in cols[1..] ==> c in cols;
      ParseColumnsRoundTrip(cols[1..]);
      assert [cols[0]] + cols[1..] == cols;
    }
  }

  /** Quoted values joined by `", "` and closed by `);` read back as the values. */
  lemma {:induction false} ParseValuesRoundTrip(vals: seq<string>)
    requires |vals| >= 1
    ensures ParseValues(JoinWith(QuotedValues(vals), ListSep) + InsertSuffix) == Some(vals)
  {
    ValuesText(vals);
    ParseValuesHead(vals[0], AfterFirstValue(vals));
    if |vals| == 1 {
      assert vals == [vals[0]];
    } else {
      ParseValuesRoundTrip(vals[1..]);
      assert [vals[0]] + vals[1..] == vals;
    }
  }

  /** What follows the first quoted value: `);`, or `", "` and the other values. */
  function AfterFirstValue(vals: seq<string>): string
    requires |vals| >= 1
  {
    if |vals| == 1 then InsertSuffix else ListSep + JoinWith(QuotedValues(vals[1..]), ListSep) + InsertSuffix
  }

  lemma ValuesText(vals: seq<string>)
    requires |vals| >= 1
    ensures JoinWith(QuotedValues(vals), ListSep) + InsertSuffix ==
            "'" + (DoubleQuotes(vals[0]) + "'" + AfterFirstValue(vals))
    ensures |vals| > 1 ==> AfterFirstValue(vals)[2..] == JoinWith(QuotedValues(vals[1..]), ListSep) + InsertSuffix
  {
    var q := QuotedValues(vals);
    assert q[0] == "'" + DoubleQuotes(vals[0]) + "'";
    if |vals| > 1 {
      assert q[1..] == QuotedValues(vals[1..]);
      assert JoinWith(q, ListSep) == q[0] + ListSep + JoinWith(q[1..], ListSep);
      Reassociate("'", DoubleQuotes(vals[0]), "'", ListSep + JoinWith(q[1..], ListSep), InsertSuffix);
    } else {
      assert JoinWith(q, ListSep) == q[0];
      Reassociate("'", DoubleQuotes(vals[0]), "'", [], InsertSuffix);
    }
  }

  lemma Reassociate(a: string, b: string, c: string, d: string, e: string)
    ensures a + b + c + d + e == a + (b + c + (d + e))
  {
  }

  /** The reader takes one quoted value, then stops at `);` or goes on after `", "`. */
  lemma ParseValuesHead(v: string, after: string)
    requires after == InsertSuffix || (|after| >= 2 && after[..2] == ListSep)
    ensures ParseValues("'" + (DoubleQuotes(v) + "'" + after)) ==
      if after == InsertSuffix then Some([v])
      else match ParseValues(after[2..])
        case None => None
        case Some(vs) => Some([v] + vs)
  {
    var text := "'" + (DoubleQuotes(v) + "'" + after);
    assert text[1..] == DoubleQuotes(v) + "'" + after;
    ReadQuotedRoundTrip(v, after);
  }

  /** No part and no separator holds `c`, so the join does not either. */
  lemma {:induction false} JoinWithLacks(parts: seq<string>, sep: string, c: char)
    requires c !in sep
    requires forall p :: p in parts ==> c !in p
    ensures c !in JoinWith(parts, sep)
  {
    if |parts| >= 1 {
      assert parts[0] in parts;
    }
    if |parts| > 1 {
      assert forall p :: p in parts[1..] ==> p in parts;
      JoinWithLacks(parts[1..], sep, c);
    }
  }

  /**
    * Reading the statement built from plain column names and as many values
    * gives back the columns and the values, each value with its own column.
    */
  lemma InsertRoundTrip(cols: seq<string>, vals: seq<string>)
    requires |cols| == |vals|
    requires forall c :: c in cols ==> PlainColumn(c)
    ensures ParseInsert(InsertCommand(cols, vals)) == Some((cols, vals))
  {
    var colText := JoinWith(cols, ListSep);
    var valText := JoinWith(QuotedValues(vals), ListSep) + InsertSuffix;
    assert InsertCommand(cols, vals) == InsertPrefix + colText + ValuesInfix + valText;
    JoinWithLacks(cols, ListSep, ')');
    ParseInsertParts(colText, valText);
    if cols == [] {
      assert colText == [];
      assert valText == InsertSuffix;
    } else {
      assert cols[0] in cols;
      assert colText != [] by {
        if |cols| > 1 {
          assert colText == cols[0] + ListSep + JoinWith(cols[1..], ListSep);
        }
      }
      ParseColumnsRoundTrip(cols);
      ParseValuesRoundTrip(vals);
      assert valText[0] == '\'' by {
        var q := QuotedValues(vals);
        if |vals| > 1 {
          assert valText == q[0] + ListSep + JoinWith(q[1..], ListSep) + InsertSuffix;
        } else {
          assert valText == q[0] + InsertSuffix;
        }
      }
    }
  }

  /** A statement of the builder's shape is read as its column list and its value list. */
  lemma ParseInsertParts(colText: string, valText: string)
    requires ')' !in colText
    ensures ParseInsert(InsertPrefix + colText + ValuesInfix + valText) ==
      var cols := if colText == [] then Some([]) else ParseColumns(colText);
      var vals := if valText == InsertSuffix then Some([]) else ParseValues(valText);
      if cols.Some? && vals.Some? && |cols.value| == |vals.value| then Some((cols.value, vals.value))
      else None
  {
    var command := InsertPrefix + colText + ValuesInfix + valText;
    assert command[..|InsertPrefix|] == InsertPrefix;
    var body := command[|InsertPrefix|..];
    assert body == colText + [')'] + (" VALUES (" + valText);
    SpanAfter(colText, " VALUES (" + valText, ')');
    assert body[..|colText|] == colText;
    assert body[|colText|..] == ValuesInfix + valText;
    assert (ValuesInfix + valText)[..|ValuesInfix|] == ValuesInfix;
    assert (ValuesInfix + valText)[|ValuesInfix|..] == valText;
  }

  /** The row a decoded statement stores: column `cols[i]` holds `vals[i]`, later columns winning. */
  function Zip(cols: seq<string>, vals: seq<string>): (row: map<string, string>)
    requires |cols| == |vals|
    ensures row.Keys == set c | c in cols
  {
    if cols == [] then map[]
    else Zip(cols[..|cols| - 1], vals[..|vals| - 1])[cols[|cols| - 1] := vals[|vals| - 1]]
  }

  /** Zipping a dictionary's keys with its values in the same order gives the dictionary back. */
  lemma {:induction false} ZipValuesOf(m: map<string, string>, keys: seq<string>)
    requires forall k :: k in keys ==> k in m
    ensures forall k :: k in keys ==> Zip(keys, ValuesOf(m, keys))[k] == m[k]
  {
    if keys != [] {
      var init := keys[..|keys| - 1];
      assert ValuesOf(m, keys)[..|keys| - 1] == ValuesOf(m, init);
      ZipValuesOf(m, init);
      forall k | k in keys
        ensures Zip(keys, ValuesOf(m, keys))[k] == m[k]
      {
        if k != keys[|keys| - 1] {
          assert k in init by {
            var i :| 0 <= i < |keys| && keys[i] == k;
            assert init[i] == k;
          }
        }
      }
    }
  }

  /**
    * Executing the statement built for a dictionary stores exactly that
    * dictionary when its column names are plain.
    */
  lemma InsertStoresRecord(m: map<string, string>, keys: seq<string>)
    requires KeyOrder(keys, m)
    requires forall c :: c in m ==> PlainColumn(c)
    ensures var decoded := ParseInsert(InsertCommand(keys, ValuesOf(m, keys)));
      decoded.Some? && Zip(decoded.value.0, decoded.value.1) == m
  {
    InsertRoundTrip(keys, ValuesOf(m, keys));
    ZipValuesOf(m, keys);
    var row := Zip(keys, ValuesOf(m, keys));
    assert row.Keys == m.Keys;
  }
}
