/**
 Character classes and the handful of Ruby String operations the schedule
 renderer leans on: `split("\n")`, `Array#*` (join), `strip`/`rstrip`, and a
 whitespace eraser used to state what word wrapping preserves.
 */
module Strings {

  /** Ruby's `\s` regex class: space, tab, line feed, vertical tab, form feed, carriage return. */
  predicate IsSpace(c: char) {
    c == ' ' || c == '\t' || c == '\n' || c == '\U{000B}' || c == '\U{000C}' || c == '\r'
  }

  /** The characters String#strip and String#rstrip remove: the `\s` class and NUL. */
  predicate IsStripChar(c: char) {
    IsSpace(c) || c == '\0'
  }

  predicate AllStrip(s: string) {
    forall k :: 0 <= k < |s| ==> IsStripChar(s[k])
  }

  /* ---------------------------------------------------------------- strip */

  /** String#rstrip: drop trailing whitespace and NUL characters. */
  function Rstrip(s: string): (r: string)
    ensures r <= s
    ensures AllStrip(s[|r|..])
    ensures r == [] || !IsStripChar(r[|r| - 1])
    decreases |s|
  {
    if |s| > 0 && IsStripChar(s[|s| - 1]) then
      var r := Rstrip(s[..|s| - 1]);
      assert s[|r|..] == s[..|s| - 1][|r|..] + [s[|s| - 1]];
      r
    else
      s
  }

  /** String#lstrip: drop leading whitespace and NUL characters. */
  function Lstrip(s: string): (r: string)
    ensures |r| <= |s| && r == s[|s| - |r|..]
    ensures AllStrip(s[..|s| - |r|])
    ensures r == [] || !IsStripChar(r[0])
    decreases |s|
  {
    if |s| > 0 && IsStripChar(s[0]) then
      var r := Lstrip(s[1..]);
      assert s[..|s| - |r|] == [s[0]] + s[1..][..|s| - 1 - |r|];
      r
    else
      s
  }

  /**
   String#strip: the longest middle part of `s` that neither starts nor ends
   with a strip character; everything cut on either side is whitespace or NUL.
   */
  function Strip(s: string): (r: string)
    ensures TrimmedAt(s, StripPrefixLen(s), r)
    ensures r == [] <==> AllStrip(s)
  {
    var t := Rstrip(s);
    var r := Lstrip(t);
    StripCuts(s, t, r);
    r
  }

  /**
   `r` is the slice of `s` starting at `i`, everything cut on either side
   is whitespace or NUL, and `r` neither starts nor ends with such a character.
   */
  predicate TrimmedAt(s: string, i: nat, r: string) {
    && i + |r| <= |s| && r == s[i..i + |r|] && AllStrip(s[..i]) && AllStrip(s[i + |r|..])
    && (r == [] || (!IsStripChar(r[0]) && !IsStripChar(r[|r| - 1])))
  }

  /** Cutting a tail and then a head off `s` leaves a middle slice of it. */
  lemma StripCuts(s: string, t: string, r: string)
    requires t <= s && AllStrip(s[|t|..])
    requires |r| <= |t| && r == t[|t| - |r|..] && AllStrip(t[..|t| - |r|])
    requires r == [] || !IsStripChar(r[0])
    requires t == [] || !IsStripChar(t[|t| - 1])
    ensures TrimmedAt(s, |t| - |r|, r)
    ensures r == [] <==> AllStrip(s)
  {
    var i := |t| - |r|;
    if r == [] {
      assert s[0..] == s;
    }
    assert t == s[..|t|];
    assert s[..i] == t[..i];
    assert r == s[i..|t|];
    if r != [] {
      assert r[|r| - 1] == t[|t| - 1];
    }
  }

  /** How many characters Strip cuts from the front of `s`. */
  function StripPrefixLen(s: string): nat {
    |Rstrip(s)| - |Lstrip(Rstrip(s))|
  }

  /* ---------------------------------------------------------- whitespace */

  /** `s` with every `\s` character erased. */
  function NonSpace(s: string): (r: string)
    ensures |r| <= |s|
    ensures forall k :: 0 <= k < |r| ==> !IsSpace(r[k])
    decreases |s|
  {
    if |s| == 0 then []
    else if IsSpace(s[0]) then NonSpace(s[1..])
    else [s[0]] + NonSpace(s[1..])
  }

  lemma {:induction false} NonSpaceAppend(a: string, b: string)
    ensures NonSpace(a + b) == NonSpace(a) + NonSpace(b)
    decreases |a|
  {
    if |a| > 0 {
      assert (a + b)[1..] == a[1..] + b;
      NonSpaceAppend(a[1..], b);
    } else {
      assert a + b == b;
    }
  }

  lemma {:induction false} NonSpaceOfSpaces(s: string)
    requires forall k :: 0 <= k < |s| ==> IsSpace(s[k])
    ensures NonSpace(s) == []
    decreases |s|
  {
    if |s| > 0 {
      NonSpaceOfSpaces(s[1..]);
    }
  }

  /* -------------------------------------------------------- split / join */

  /** Array#join: the parts with `sep` between consecutive ones. */
  function Join(parts: seq<string>, sep: string): string
    decreases |parts|
  {
    if |parts| == 0 then []
    else if |parts| == 1 then parts[0]
    else parts[0] + sep + Join(parts[1..], sep)
  }

  lemma {:induction false} JoinSnoc(parts: seq<string>, x: string, sep: string)
    requires |parts| >= 1
    ensures Join(parts + [x], sep) == Join(parts, sep) + sep + x
    decreases |parts|
  {
    if |parts| == 1 {
      assert parts + [x] == [parts[0], x];
      assert (parts + [x])[1..] == [x];
    } else {
      assert (parts + [x])[1..] == parts[1..] + [x];
      JoinSnoc(parts[1..], x, sep);
    }
  }

  lemma {:induction false} JoinWithoutChar(parts: seq<string>, sep: string, x: char)
    requires forall k :: 0 <= k < |parts| ==> x !in parts[k]
    requires x !in sep
    ensures x !in Join(parts, sep)
    decreases |parts|
  {
    if |parts| > 1 {
      JoinWithoutChar(parts[1..], sep, x);
    }
  }

  /** Index of the first `c` in `s`, or `|s|` when there is none. */
  function FirstIndex(s: string, c: char): (i: nat)
    ensures i <= |s|
    ensures forall k :: 0 <= k < i ==> s[k] != c
    ensures i < |s| ==> s[i] == c
    decreases |s|
  {
    if |s| == 0 then 0
    else if s[0] == c then 0
    else 1 + FirstIndex(s[1..], c)
  }

  /**
   Every field of `s` between line feeds, empty ones included; the fields
   joined by line feeds give `s` back.
   */
  function SplitFields(s: string): (fields: seq<string>)
    ensures |fields| >= 1
    ensures forall k :: 0 <= k < |fields| ==> '\n' !in fields[k]
    ensures Join(fields, "\n") == s
    decreases |s|
  {
    var i := FirstIndex(s, '\n');
    if i == |s| then
      [s]
    else
      var rest := SplitFields(s[i + 1..]);
      var fields := [s[..i]] + rest;
      assert fields[1..] == rest;
      assert s == s[..i] + "\n" + s[i + 1..];
      fields
  }

  /** Ruby drops the empty fields at the end of a split result. */
  function DropTrailingEmpty(fields: seq<string>): (r: seq<string>)
    ensures r <= fields
    ensures r == [] || r[|r| - 1] != []
    ensures forall k :: |r| <= k < |fields| ==> fields[k] == []
    decreases |fields|
  {
    if |fields| > 0 && fields[|fields| - 1] == [] then
      DropTrailingEmpty(fields[..|fields| - 1])
    else
      fields
  }

  /**
   String#split("\n"): the line-feed separated fields with trailing empty
   fields removed (so "" and "\n\n" both give no fields at all).
   */
  function SplitLines(s: string): (lines: seq<string>)
    ensures forall k :: 0 <= k < |lines| ==> '\n' !in lines[k]
    ensures lines == [] || lines[|lines| - 1] != []
  {
    DropTrailingEmpty(SplitFields(s))
  }

  /**
   Splitting loses only line feeds at the very end: joining the lines back
   with line feeds gives a prefix of `s`, and the rest of `s` is line feeds.
   */
  lemma SplitLinesRejoin(s: string)
    ensures Join(SplitLines(s), "\n") <= s
    ensures forall k :: |Join(SplitLines(s), "\n")| <= k < |s| ==> s[k] == '\n'
  {
    DropTrailingEmptyRejoin(SplitFields(s));
  }

  lemma {:induction false} DropTrailingEmptyRejoin(fields: seq<string>)
    requires |fields| >= 1
    ensures Join(DropTrailingEmpty(fields), "\n") <= Join(fields, "\n")
    ensures forall k :: |Join(DropTrailingEmpty(fields), "\n")| <= k < |Join(fields, "\n")| ==>
      Join(fields, "\n")[k] == '\n'
    decreases |fields|
  {
    if fields[|fields| - 1] == [] {
      var front := fields[..|fields| - 1];
      assert fields == front + [[]];
      if |front| == 0 {
        assert DropTrailingEmpty(front) == [];
        assert Join(fields, "\n") == [];
      } else {
        DropTrailingEmptyRejoin(front);
        JoinSnoc(front, [], "\n");
      }
    }
  }
}
