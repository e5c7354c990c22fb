/**
 `pad_summary` of schedule.rb: the wrapped title is counted for "<br/>"
 markers (String#scan, leftmost and non-overlapping) and, when it has fewer
 than five, "&nbsp;<br/>" pairs are appended until it has five, so that all
 event boxes come out the same height.
 */
module Padding {
  import opened WordWrap

  const MinBreaks: nat := 5
  /** The HTML non-breaking space entity, also the filler of an empty presenter slot. */
  const Nbsp: string := "&nbsp;"
  const PadPair: string := Nbsp + BreakMarker

  /** summary.scan('<br/>').length: markers found scanning left to right. */
  function CountBreaks(s: string): nat
    decreases |s|
  {
    if |s| < |BreakMarker| then 0
    else if s[..|BreakMarker|] == BreakMarker then 1 + CountBreaks(s[|BreakMarker|..])
    else CountBreaks(s[1..])
  }

  function Repeat(t: string, k: nat): string
    decreases k
  {
    if k == 0 then [] else t + Repeat(t, k - 1)
  }

  function Max(a: nat, b: nat): nat {
    if a >= b then a else b
  }

  /** Text made only of whole "&nbsp;<br/>" pairs. */
  predicate IsPadding(t: string)
    decreases |t|
  {
    t == [] || (|t| >= |PadPair| && t[..|PadPair|] == PadPair && IsPadding(t[|PadPair|..]))
  }

  /**
   pad_summary: the summary is kept as a prefix, only whole padding pairs
   are appended, a summary with five or more markers is returned unchanged,
   and the result has exactly max(5, n) markers.
   */
  function PadSummary(summary: string): (r: string)
    ensures |summary| <= |r| && r[..|summary|] == summary
    ensures IsPadding(r[|summary|..])
    ensures CountBreaks(summary) >= MinBreaks ==> r == summary
    ensures CountBreaks(r) == Max(MinBreaks, CountBreaks(summary))
  {
    var n := CountBreaks(summary);
    if n >= MinBreaks then
      assert summary[|summary|..] == [];
      summary
    else
      var pad := Repeat(PadPair, MinBreaks - n);
      CountBreaksOfPadding(MinBreaks - n);
      CountBreaksAppend(summary, pad);
      RepeatIsPadding(MinBreaks - n);
      assert (summary + pad)[|summary|..] == pad;
      summary + pad
  }

  lemma {:induction false} RepeatIsPadding(k: nat)
    ensures IsPadding(Repeat(PadPair, k))
    decreases k
  {
    if k > 0 {
      RepeatIsPadding(k - 1);
      var r := Repeat(PadPair, k);
      assert r[..|PadPair|] == PadPair && r[|PadPair|..] == Repeat(PadPair, k - 1);
    }
  }

  /** Padding never brings a line feed in. */
  lemma {:induction false} PaddingHasNoNewline(t: string)
    requires IsPadding(t)
    ensures '\n' !in t
    decreases |t|
  {
    if t != [] {
      PaddingHasNoNewline(t[|PadPair|..]);
      assert t == t[..|PadPair|] + t[|PadPair|..];
    }
  }

  /** A title that ends in "<br/>" has that marker counted by the scan. */
  lemma {:induction false} EndsMarkerCounts(s: string)
    requires EndsWithMarker(s)
    ensures CountBreaks(s) >= 1
    decreases |s|
  {
    var m := |BreakMarker|;
    if s[..m] != BreakMarker {
      assert |s| > m;
      assert s[1..][|s| - 1 - m..] == s[|s| - m..];
      EndsMarkerCounts(s[1..]);
    }
  }

  /** Padding a padded title changes nothing. */
  lemma PadSummaryIdempotent(summary: string)
    ensures PadSummary(PadSummary(summary)) == PadSummary(summary)
  {
  }

  /** A suffix that cannot complete a marker begun before it: it starts with none of "br/>". */
  predicate StartsClean(b: string) {
    b == [] || (b[0] != 'b' && b[0] != 'r' && b[0] != '/' && b[0] != '>')
  }

  /**
   Counting splits over a concatenation when the second part cannot finish
   a marker the first part started.
   */
  lemma {:induction false} CountBreaksAppend(a: string, b: string)
    requires StartsClean(b)
    ensures CountBreaks(a + b) == CountBreaks(a) + CountBreaks(b)
    decreases |a|
  {
    var m := |BreakMarker|;
    if |a| == 0 {
      assert a + b == b;
    } else if |a + b| < m {
    } else if (a + b)[..m] == BreakMarker {
      if |a| >= m {
        assert a[..m] == (a + b)[..m];
        assert (a + b)[m..] == a[m..] + b;
        CountBreaksAppend(a[m..], b);
      } else {
        MarkerStraddles(a, b);
        assert false;
      }
    } else {
      assert (a + b)[1..] == a[1..] + b;
      CountBreaksAppend(a[1..], b);
      if |a| >= m {
        assert a[..m] == (a + b)[..m];
      }
    }
  }

  /** A marker that starts inside `a` but does not fit in it continues into `b`. */
  lemma MarkerStraddles(a: string, b: string)
    requires 0 < |a| < |BreakMarker| <= |a + b|
    requires (a + b)[..|BreakMarker|] == BreakMarker
    ensures b[0] == BreakMarker[|a|]
  {
    assert b[0] == (a + b)[|a|];
  }

  /** Each padding pair carries exactly one marker. */
  lemma {:induction false} CountBreaksOfPadding(k: nat)
    ensures CountBreaks(Repeat(PadPair, k)) == k
    ensures StartsClean(Repeat(PadPair, k))
    decreases k
  {
    if k > 0 {
      var rest := Repeat(PadPair, k - 1);
      CountBreaksOfPadding(k - 1);
      PairThenPadding(rest);
      assert Repeat(PadPair, k) == PadPair + rest;
    }
  }

  lemma PairThenPadding(rest: string)
    requires StartsClean(rest)
    ensures CountBreaks(PadPair + rest) == 1 + CountBreaks(rest)
    ensures StartsClean(PadPair + rest)
  {
    CountBreaksOfPair();
    CountBreaksAppend(PadPair, rest);
    assert (PadPair + rest)[0] == PadPair[0];
  }

  /** A scan position that cannot start a marker is stepped over. */
  lemma CountBreaksSkip(s: string)
    requires |s| >= |BreakMarker| && s[0] != '<'
    ensures CountBreaks(s) == CountBreaks(s[1..])
  {
    assert s[..|BreakMarker|][0] == s[0];
  }

  lemma CountBreaksOfPair()
    ensures CountBreaks(PadPair) == 1
  {
    var m := BreakMarker;
    assert PadPair == Nbsp + m;
    SkipNoOpen(Nbsp, m);
    assert m[..|m|] == m && m[|m|..] == [];
  }

  /** A prefix without any '<' cannot start a marker and is stepped over. */
  lemma {:induction false} SkipNoOpen(a: string, b: string)
    requires forall k :: 0 <= k < |a| ==> a[k] != '<'
    requires |b| >= |BreakMarker|
    ensures CountBreaks(a + b) == CountBreaks(b)
    decreases |a|
  {
    if |a| > 0 {
      var s := a + b;
      CountBreaksSkip(s);
      assert s[1..] == a[1..] + b;
      SkipNoOpen(a[1..], b);
    } else {
      assert a + b == b;
    }
  }
}
