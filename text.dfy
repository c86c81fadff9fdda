/**
  * The Python 2 `str` operations the scripts rely on, over strings as
  * sequences of characters: `strip()`, `split(sep)`, `sep.join(parts)`,
  * `replace(c, "")` and `lower()`.
  */
module Text {

  /** The characters `str.strip()` removes from a Python 2 byte string. */
  predicate IsWhitespace(c: char) {
    c == ' ' || c == '\t' || c == '\n' || c == '\r' || c == '\U{B}' || c == '\U{C}'
  }

  /** Number of whitespace characters at the start of `s`. */
  function LeadingSpace(s: string): (k: nat)
    ensures k <= |s|
    ensures forall i :: 0 <= i < k ==> IsWhitespace(s[i])
    ensures k == |s| || !IsWhitespace(s[k])
  {
    if |s| > 0 && IsWhitespace(s[0]) then 1 + LeadingSpace(s[1..]) else 0
  }

  /** Number of whitespace characters at the end of `s`. */
  function TrailingSpace(s: string): (k: nat)
    ensures k <= |s|
    ensures forall i :: |s| - k <= i < |s| ==> IsWhitespace(s[i])
    ensures k == |s| || !IsWhitespace(s[|s| - 1 - k])
  {
    if |s| > 0 && IsWhitespace(s[|s| - 1]) then 1 + TrailingSpace(s[..|s| - 1]) else 0
  }

  /**
    * `s.strip()`: the infix of `s` that starts after its leading whitespace,
    * such that everything after it is whitespace and it neither starts nor
    * ends with whitespace.
    */
  function Strip(s: string): (r: string)
    ensures r == [] || (!IsWhitespace(r[0]) && !IsWhitespace(r[|r| - 1]))
    ensures LeadingSpace(s) + |r| <= |s|
    ensures r == s[LeadingSpace(s)..LeadingSpace(s) + |r|]
    ensures forall i :: LeadingSpace(s) + |r| <= i < |s| ==> IsWhitespace(s[i])
  {
    var t := s[LeadingSpace(s)..];
    t[..|t| - TrailingSpace(t)]
  }

  /** A string with no surrounding whitespace is left alone by `strip()`. */
  lemma StripUnchanged(s: string)
    requires s == [] || (!IsWhitespace(s[0]) && !IsWhitespace(s[|s| - 1]))
    ensures Strip(s) == s
  {
    assert LeadingSpace(s) == 0;
    assert TrailingSpace(s) == 0;
  }

  /** `sep.join(parts)` for a one-character separator. */
  function Join(parts: seq<string>, sep: char): string
  {
    if parts == [] then []
    else if |parts| == 1 then parts[0]
    else parts[0] + [sep] + Join(parts[1..], sep)
  }

  /**
    * `s.split(sep)` for a one-character separator: every occurrence of `sep`
    * separates two parts, and empty parts are kept, so there is always at
    * least one part, no part holds `sep`, and joining the parts gives `s` back.
    */
  function Split(s: string, sep: char): (parts: seq<string>)
    ensures |parts| >= 1
    ensures forall p :: p in parts ==> sep !in p
    ensures Join(parts, sep) == s
  {
    if s == [] then [[]]
    else
      var rest := Split(s[1..], sep);
      if s[0] == sep then
        [[]] + rest
      else
        assert Join(rest, sep) == s[1..];
        var parts := [[s[0]] + rest[0]] + rest[1..];
        assert parts[1..] == rest[1..];
        assert |rest| > 1 ==> Join(rest, sep) == rest[0] + [sep] + Join(rest[1..], sep);
        parts
  }

  /** Number of occurrences of `c` in `s`. */
  function Count(s: string, c: char): nat
  {
    if s == [] then 0 else (if s[0] == c then 1 else 0) + Count(s[1..], c)
  }

  /** `s.split(sep)` has one part more than `s` has separators. */
  lemma {:induction false} SplitLength(s: string, sep: char)
    ensures |Split(s, sep)| == Count(s, sep) + 1
  {
    if s != [] {
      SplitLength(s[1..], sep);
    }
  }

  /** Splitting `x + t` where `x` holds no separator glues `x` onto the first part of `t`. */
  lemma {:induction false} SplitPrefix(x: string, t: string, sep: char)
    requires sep !in x
    ensures Split(x + t, sep) == [x + Split(t, sep)[0]] + Split(t, sep)[1..]
  {
    var st := Split(t, sep);
    if x == [] {
      assert x + t == t;
      assert x + st[0] == st[0];
      assert [st[0]] + st[1..] == st;
    } else {
      assert (x + t)[0] == x[0] && (x + t)[1..] == x[1..] + t;
      SplitPrefix(x[1..], t, sep);
      var rest := Split(x[1..] + t, sep);
      assert rest == [x[1..] + st[0]] + st[1..];
      assert Split(x + t, sep) == [[x[0]] + rest[0]] + rest[1..];
      assert [x[0]] + (x[1..] + st[0]) == x + st[0];
    }
  }

  /** Splitting a join of separator-free parts gives the parts back. */
  lemma {:induction false} SplitJoin(parts: seq<string>, sep: char)
    requires |parts| >= 1
    requires forall x :: x in parts ==> sep !in x
    ensures Split(Join(parts, sep), sep) == parts
  {
    assert parts[0] in parts;
    if |parts| == 1 {
      SplitPrefix(parts[0], [], sep);
      assert parts[0] + [] == parts[0];
    } else {
      var u := Join(parts[1..], sep);
      assert Join(parts, sep) == parts[0] + ([sep] + u);
      SplitPrefix(parts[0], [sep] + u, sep);
      assert ([sep] + u)[0] == sep && ([sep] + u)[1..] == u;
      assert Split([sep] + u, sep) == [[]] + Split(u, sep);
      assert parts[0] + [] == parts[0];
      forall x | x in parts[1..] ensures sep !in x { assert x in parts; }
      SplitJoin(parts[1..], sep);
      assert parts == [parts[0]] + parts[1..];
    }
  }

  /** A separator-free part followed by the separator splits off as the first part. */
  lemma SplitAfterPart(x: string, u: string, sep: char)
    requires sep !in x
    ensures Split(x + [sep] + u, sep) == [x] + Split(u, sep)
  {
    var t := [sep] + u;
    assert x + [sep] + u == x + t;
    SplitPrefix(x, t, sep);
    SplitLeadingSep(u, sep);
    var st := Split(t, sep);
    assert st[0] == [] && st[1..] == Split(u, sep);
    assert x + st[0] == x;
  }

  /** Splitting `a`, `b`, `c` and `u` joined by `sep` gives `a`, `b`, `c` and then the parts of `u`. */
  lemma SplitThreeParts(a: string, b: string, c: string, u: string, sep: char)
    requires sep !in a && sep !in b && sep !in c
    ensures Split(a + [sep] + b + [sep] + c + [sep] + u, sep) == [a, b, c] + Split(u, sep)
  {
    var u2 := c + [sep] + u;
    var u1 := b + [sep] + u2;
    assert a + [sep] + b + [sep] + c + [sep] + u == a + [sep] + u1;
    SplitAfterPart(a, u1, sep);
    SplitAfterPart(b, u2, sep);
    SplitAfterPart(c, u, sep);
    assert Split(u1, sep) == [b, c] + Split(u, sep);
  }

  /** A string without the separator is its own single part. */
  lemma SplitNone(s: string, sep: char)
    requires sep !in s
    ensures Split(s, sep) == [s]
  {
    SplitPrefix(s, [], sep);
    assert s + [] == s;
  }

  /**
    * The last part of `s.split(sep)`, when `s` has a separator followed by a
    * separator-free `y`, is `y`.
    */
  lemma {:induction false} SplitLastPart(x: string, y: string, sep: char)
    requires sep !in y
    ensures |Split(x + [sep] + y, sep)| >= 2
    ensures Split(x + [sep] + y, sep)[|Split(x + [sep] + y, sep)| - 1] == y
  {
    var s := x + [sep] + y;
    if x == [] {
      assert s == [sep] + y;
      SplitLeadingSep(y, sep);
      SplitNone(y, sep);
    } else {
      var t := x[1..] + [sep] + y;
      assert s[0] == x[0] && s[1..] == t;
      SplitLastPart(x[1..], y, sep);
    }
  }

  /** A character in no part and other than the separator is not in the join. */
  lemma {:induction false} JoinLacks(parts: seq<string>, sep: char, x: char)
    requires x != sep
    requires forall p :: p in parts ==> x !in p
    ensures x !in Join(parts, sep)
  {
    if |parts| > 1 {
      assert parts[0] in parts;
      assert forall p :: p in parts[1..] ==> p in parts;
      JoinLacks(parts[1..], sep, x);
    } else if |parts| == 1 {
      assert parts[0] in parts;
    }
  }

  /** A leading separator splits off an empty first part. */
  lemma SplitLeadingSep(u: string, sep: char)
    ensures Split([sep] + u, sep) == [[]] + Split(u, sep)
  {
    assert ([sep] + u)[0] == sep && ([sep] + u)[1..] == u;
  }

  /** Every character of a part of `s.split(sep)` is a character of `s`. */
  lemma {:induction false} JoinHolds(parts: seq<string>, sep: char, i: nat, x: char)
    requires i < |parts| && x in parts[i]
    ensures x in Join(parts, sep)
  {
    if |parts| > 1 {
      var rest := Join(parts[1..], sep);
      assert Join(parts, sep) == parts[0] + [sep] + rest;
      if i > 0 {
        JoinHolds(parts[1..], sep, i - 1, x);
      }
    }
  }

  /** A character `s` lacks is in no part of `s.split(sep)`. */
  lemma SplitLacks(s: string, sep: char, x: char)
    requires x !in s
    ensures forall p :: p in Split(s, sep) ==> x !in p
  {
    var parts := Split(s, sep);
    forall p | p in parts
      ensures x !in p
    {
      var i :| 0 <= i < |parts| && parts[i] == p;
      if x in p {
        JoinHolds(parts, sep, i, x);
      }
    }
  }

  /** `sep.join(parts)` for a separator of any length. */
  function JoinWith(parts: seq<string>, sep: string): string
  {
    if parts == [] then []
    else if |parts| == 1 then parts[0]
    else parts[0] + sep + JoinWith(parts[1..], sep)
  }

  /** Index of the first `c` in `s`, or `|s|` when there is none (`s.find(c)` with `-1` read as `|s|`). */
  function Span(s: string, c: char): (k: nat)
    ensures k <= |s|
    ensures c !in s[..k]
    ensures k < |s| ==> s[k] == c
  {
    if s == [] || s[0] == c then 0 else 1 + Span(s[1..], c)
  }

  /** The first `c` in `x + [c] + y`, when `x` has none, is just after `x`. */
  lemma {:induction false} SpanAfter(x: string, y: string, c: char)
    requires c !in x
    ensures Span(x + [c] + y, c) == |x|
  {
    if x != [] {
      assert (x + [c] + y)[1..] == x[1..] + [c] + y;
      SpanAfter(x[1..], y, c);
    }
  }

  /** `s.replace(c, "")`: `s` with every occurrence of `c` deleted, in order. */
  function RemoveChar(s: string, c: char): string
  {
    if s == [] then []
    else if s[0] == c then RemoveChar(s[1..], c)
    else [s[0]] + RemoveChar(s[1..], c)
  }

  /**
    * `s.replace(c, "")` keeps exactly the characters of `s` other than `c`
    * and is shorter by the number of occurrences of `c`.
    */
  lemma {:induction false} RemoveCharSpec(s: string, c: char)
    ensures c !in RemoveChar(s, c)
    ensures forall x :: x in RemoveChar(s, c) <==> x in s && x != c
    ensures |RemoveChar(s, c)| == |s| - Count(s, c)
  {
    if s != [] {
      RemoveCharSpec(s[1..], c);
      assert forall x :: x in s <==> x == s[0] || x in s[1..];
    }
  }

  /** Deleting a character the string does not hold changes nothing. */
  lemma {:induction false} RemoveAbsent(s: string, c: char)
    requires c !in s
    ensures RemoveChar(s, c) == s
  {
    if s != [] {
      RemoveAbsent(s[1..], c);
    }
  }

  /** Deleting a character from a concatenation deletes it from each side. */
  lemma {:induction false} RemoveCharConcat(a: string, b: string, c: char)
    ensures RemoveChar(a + b, c) == RemoveChar(a, c) + RemoveChar(b, c)
  {
    if a != [] {
      assert (a + b)[0] == a[0] && (a + b)[1..] == a[1..] + b;
      RemoveCharConcat(a[1..], b, c);
    } else {
      assert a + b == b;
    }
  }

  predicate IsUpper(x: char) {
    'A' <= x <= 'Z'
  }

  /** ASCII lower-casing of one character, as Python 2 `str.lower()` does it. */
  function LowerChar(x: char): (y: char)
    ensures !IsUpper(y)
    ensures IsUpper(x) ==> y as int == x as int + 32
    ensures !IsUpper(x) ==> y == x
  {
    if IsUpper(x) then (x as int + 32) as char else x
  }

  /** `s.lower()`: every upper-case ASCII letter replaced by its lower-case form. */
  function Lower(s: string): (r: string)
    ensures |r| == |s|
    ensures forall i :: 0 <= i < |s| ==> r[i] == LowerChar(s[i])
    ensures forall x :: x in r ==> !IsUpper(x)
  {
    seq(|s|, i requires 0 <= i < |s| => LowerChar(s[i]))
  }

  /** A string with no upper-case letter is its own lower-case form. */
  lemma LowerUnchanged(s: string)
    requires forall x :: x in s ==> !IsUpper(x)
    ensures Lower(s) == s
  {
    assert forall i :: 0 <= i < |s| ==> s[i] in s;
  }

  /** Lower-casing neither creates nor removes a character that is not a letter. */
  lemma LowerKeeps(s: string, c: char)
    requires !('A' <= c <= 'Z') && !('a' <= c <= 'z')
    ensures c in Lower(s) <==> c in s
  {
    if c in s {
      var i :| 0 <= i < |s| && s[i] == c;
      assert Lower(s)[i] == c;
    }
    if c in Lower(s) {
      var i :| 0 <= i < |s| && Lower(s)[i] == c;
      assert s[i] == c;
    }
  }

  /** Every character of `s` is ASCII, so Python 2 can encode it with the `ascii` codec. */
  predicate IsAscii(s: string) {
    forall x :: x in s ==> x as int < 128
  }
}
