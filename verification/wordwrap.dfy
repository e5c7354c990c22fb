/**
 `word_wrap` of schedule.rb: the summary is split on line feeds, every line
 longer than 20 characters is rewritten by
   gsub(/(.{1,20})(\s+|$)/, "\\1<br/>").rstrip
 and the lines are joined with "<br/>".

 The regex engine is a backtracking one: at each position it tries the
 longest `.{1,20}` first and shortens it until `\s+` or end-of-line can
 follow; the whitespace run `\s+` swallows is dropped, and a position where
 no match starts is copied through. The rewrite is modelled as a sequence
 of pieces, either a copied character or an inserted marker, so that the
 markers the wrap inserts can be told apart from "<br/>" text the summary
 may already contain.
 */
module WordWrap {
  import opened Strings

  const LineWidth: nat := 20
  const BreakMarker: string := "<br/>"

  datatype Piece = Ch(c: char) | Br

  /** The text a piece sequence stands for. */
  function Render(ps: seq<Piece>): string
    decreases |ps|
  {
    if |ps| == 0 then []
    else (if ps[0].Br? then BreakMarker else [ps[0].c]) + Render(ps[1..])
  }

  /** The copied characters, with every inserted marker erased. */
  function Kept(ps: seq<Piece>): string
    decreases |ps|
  {
    if |ps| == 0 then []
    else (if ps[0].Br? then [] else [ps[0].c]) + Kept(ps[1..])
  }

  /** The characters of `s`, each copied through. */
  function Chars(s: string): (ps: seq<Piece>)
    ensures |ps| == |s|
    ensures forall k :: 0 <= k < |s| ==> ps[k] == Ch(s[k])
  {
    seq(|s|, k requires 0 <= k < |s| => Ch(s[k]))
  }

  lemma {:induction false} RenderAppend(a: seq<Piece>, b: seq<Piece>)
    ensures Render(a + b) == Render(a) + Render(b)
    decreases |a|
  {
    if |a| == 0 {
      assert a + b == b;
    } else {
      assert (a + b)[1..] == a[1..] + b;
      RenderAppend(a[1..], b);
    }
  }

  lemma {:induction false} KeptAppend(a: seq<Piece>, b: seq<Piece>)
    ensures Kept(a + b) == Kept(a) + Kept(b)
    decreases |a|
  {
    if |a| == 0 {
      assert a + b == b;
    } else {
      assert (a + b)[1..] == a[1..] + b;
      KeptAppend(a[1..], b);
    }
  }

  /** Copied-through text renders as itself and keeps all of itself. */
  lemma {:induction false} CharsRoundTrip(s: string)
    ensures Render(Chars(s)) == s
    ensures Kept(Chars(s)) == s
    decreases |s|
  {
    if |s| > 0 {
      assert Chars(s)[1..] == Chars(s[1..]);
      CharsRoundTrip(s[1..]);
    }
  }

  lemma {:induction false} RenderWithoutChar(ps: seq<Piece>, x: char)
    requires x !in BreakMarker
    requires forall k :: 0 <= k < |ps| ==> ps[k] != Ch(x)
    ensures x !in Render(ps)
    decreases |ps|
  {
    if |ps| > 0 {
      RenderWithoutChar(ps[1..], x);
    }
  }

  /* ------------------------------------------------------ one long line */

  /** Where `(\s+|$)` can begin: at the end of the line or at a whitespace character. */
  predicate Breakable(line: string, q: nat)
    requires q <= |line|
  {
    q == |line| || IsSpace(line[q])
  }

  /**
   The length `.{1,len}` settles on at `p` after backtracking: the longest
   one followed by a breakable position, or 0 when no length is.
   */
  function ChunkLen(line: string, p: nat, len: nat): (n: nat)
    requires p + len <= |line|
    ensures n <= len
    ensures n > 0 ==> Breakable(line, p + n)
    ensures forall q :: p + n < q <= p + len ==> !Breakable(line, q)
    decreases len
  {
    if len == 0 then 0
    else if Breakable(line, p + len) then len
    else ChunkLen(line, p, len - 1)
  }

  /** The end of the whitespace run starting at `q`: what greedy `\s+` consumes. */
  function SpaceRunEnd(line: string, q: nat): (e: nat)
    requires q <= |line|
    ensures q <= e <= |line|
    ensures forall k :: q <= k < e ==> IsSpace(line[k])
    ensures e == |line| || !IsSpace(line[e])
    decreases |line| - q
  {
    if q < |line| && IsSpace(line[q]) then SpaceRunEnd(line, q + 1) else q
  }

  function Min(a: nat, b: nat): nat {
    if a <= b then a else b
  }

  /** Every copied character of `ps` occurs in `line`. */
  predicate CopiedFrom(ps: seq<Piece>, line: string) {
    forall k :: 0 <= k < |ps| && ps[k].Ch? ==> ps[k].c in line
  }

  /* ------------------------------------------- the regex, step by step */

  /**
   One step of the scan the regex engine makes over a line: either no match
   starts at `at` and the character there is copied through, or a match
   takes the `len` characters of its chunk and the whitespace up to `resume`.
   */
  datatype Step = Copy(at: nat) | Match(at: nat, len: nat, resume: nat)

  /** Where the scan carries on after a step. */
  function Next(s: Step): nat {
    match s
    case Copy(at) => at + 1
    case Match(_, _, resume) => resume
  }

  /**
   `s` is what /(.{1,20})(\s+|$)/ does at its position. A match takes the
   longest chunk of 1 to 20 characters that whitespace or the end of the
   line follows, then the whole whitespace run after it. A copy happens
   exactly where no chunk of 1 to 20 characters is followed by either.
   */
  predicate RegexStep(line: string, s: Step) {
    match s
    case Copy(at) =>
      && at < |line|
      && (forall q :: at < q <= at + LineWidth && q <= |line| ==> !Breakable(line, q))
    case Match(at, len, resume) =>
      && 1 <= len <= LineWidth && at + len <= resume <= |line|
      && Breakable(line, at + len)
      && (forall q :: at + len < q <= at + LineWidth && q <= |line| ==> !Breakable(line, q))
      && (forall q :: at + len <= q < resume ==> IsSpace(line[q]))
      && (resume == |line| || !IsSpace(line[resume]))
  }

  /** What the replacement "\\1<br/>" writes for one step. */
  function StepPieces(line: string, s: Step): seq<Piece> {
    match s
    case Copy(at) => if at < |line| then [Ch(line[at])] else []
    case Match(at, len, _) => if at + len <= |line| then Chars(line[at..at + len]) + [Br] else []
  }

  /**
   The step the regex engine takes at `p`: a match when some chunk of 1 to
   20 characters ends where whitespace or the end of the line follows, a
   copy otherwise.
   */
  function ScanStep(line: string, p: nat): (s: Step)
    requires p < |line|
    ensures s.at == p && RegexStep(line, s) && p < Next(s) <= |line|
  {
    var len := Min(LineWidth, |line| - p);
    var n := ChunkLen(line, p, len);
    if n == 0 then
      CopyIsRegexStep(line, p, len);
      Copy(p)
    else
      var e := SpaceRunEnd(line, p + n);
      MatchIsRegexStep(line, p, len, n, e);
      Match(p, n, e)
  }

  lemma CopyIsRegexStep(line: string, p: nat, len: nat)
    requires p < |line| && len == Min(LineWidth, |line| - p)
    requires forall q :: p < q <= p + len ==> !Breakable(line, q)
    ensures RegexStep(line, Copy(p))
  {
  }

  lemma MatchIsRegexStep(line: string, p: nat, len: nat, n: nat, e: nat)
    requires p < |line| && len == Min(LineWidth, |line| - p)
    requires 0 < n <= len && Breakable(line, p + n)
    requires forall q :: p + n < q <= p + len ==> !Breakable(line, q)
    requires p + n <= e <= |line| && (forall q :: p + n <= q < e ==> IsSpace(line[q]))
    requires e == |line| || !IsSpace(line[e])
    ensures RegexStep(line, Match(p, n, e))
  {
  }

  /**
   The gsub from position `p` on: the replacement of the step taken at `p`,
   then the gsub from where the scan carries on. Every non-empty remainder
   ends in an inserted marker (the last step is always a match), and every
   copied character comes from the line.
   */
  function Gsub(line: string, p: nat): (ps: seq<Piece>)
    requires p <= |line|
    ensures p < |line| ==> |ps| > 0 && ps[|ps| - 1] == Br
    ensures CopiedFrom(ps, line)
    decreases |line| - p
  {
    if p == |line| then []
    else
      var s := ScanStep(line, p);
      var rest := Gsub(line, Next(s));
      StepCopiedFrom(line, s, rest);
      LastStepMatches(line, s);
      StepPieces(line, s) + rest
  }

  /** A copy never ends the scan: the end of the line is itself a place a chunk may end. */
  lemma LastStepMatches(line: string, s: Step)
    requires RegexStep(line, s)
    ensures Next(s) == |line| ==> s.Match?
    ensures s.Match? ==> |StepPieces(line, s)| > 0 && StepPieces(line, s)[|StepPieces(line, s)| - 1] == Br
  {
    if s.Copy? {
      assert s.at + 1 <= |line| ==> !Breakable(line, s.at + 1);
    }
  }

  lemma StepCopiedFrom(line: string, s: Step, rest: seq<Piece>)
    requires RegexStep(line, s) && CopiedFrom(rest, line)
    ensures CopiedFrom(StepPieces(line, s) + rest, line)
  {
    match s
    case Copy(at) => CopyCopiedFrom(line, at, rest);
    case Match(at, len, _) => ChunkCopiedFrom(line, at, len, rest);
  }

  lemma CopyCopiedFrom(line: string, p: nat, rest: seq<Piece>)
    requires p < |line| && CopiedFrom(rest, line)
    ensures CopiedFrom([Ch(line[p])] + rest, line)
  {
    var ps := [Ch(line[p])] + rest;
    forall k | 0 <= k < |ps| && ps[k].Ch? ensures ps[k].c in line {
      if k > 0 {
        assert ps[k] == rest[k - 1];
      }
    }
  }

  lemma ChunkCopiedFrom(line: string, p: nat, n: nat, rest: seq<Piece>)
    requires p + n <= |line| && CopiedFrom(rest, line)
    ensures CopiedFrom(Chars(line[p..p + n]) + [Br] + rest, line)
  {
    var head := Chars(line[p..p + n]);
    var ps := head + [Br] + rest;
    forall k | 0 <= k < |ps| && ps[k].Ch? ensures ps[k].c in line {
      if k < n {
        assert ps[k] == Ch(line[p + k]);
      } else if k > n {
        assert ps[k] == rest[k - n - 1];
      }
    }
  }

  /**
   The rewrite never drops or reorders a non-whitespace character: with
   the inserted markers erased and all whitespace erased, what is left is
   the rest of the line with its whitespace erased.
   */
  lemma {:induction false} GsubKeepsNonSpace(line: string, p: nat)
    requires p <= |line|
    ensures NonSpace(Kept(Gsub(line, p))) == NonSpace(line[p..])
    decreases |line| - p
  {
    if p < |line| {
      var s := ScanStep(line, p);
      var rest := Gsub(line, Next(s));
      GsubKeepsNonSpace(line, Next(s));
      StepKeepsNonSpace(line, s, rest);
      assert Gsub(line, p) == StepPieces(line, s) + rest;
    }
  }

  /** One step of the scan keeps the non-whitespace characters of the span it covers. */
  lemma StepKeepsNonSpace(line: string, s: Step, rest: seq<Piece>)
    requires RegexStep(line, s)
    requires NonSpace(Kept(rest)) == NonSpace(line[Next(s)..])
    ensures NonSpace(Kept(StepPieces(line, s) + rest)) == NonSpace(line[s.at..])
  {
    match s
    case Copy(at) => CopyStepKeepsNonSpace(line, at, rest);
    case Match(at, n, e) => MatchStepKeepsNonSpace(line, at, n, e, rest);
  }

  /** A position where no match starts: its character is copied. */
  lemma CopyStepKeepsNonSpace(line: string, p: nat, rest: seq<Piece>)
    requires p < |line|
    requires NonSpace(Kept(rest)) == NonSpace(line[p + 1..])
    ensures NonSpace(Kept([Ch(line[p])] + rest)) == NonSpace(line[p..])
  {
    KeptAppend([Ch(line[p])], rest);
    assert Kept([Ch(line[p])]) == [line[p]];
    assert line[p..] == [line[p]] + line[p + 1..];
    NonSpaceAppend([line[p]], Kept(rest));
    NonSpaceAppend([line[p]], line[p + 1..]);
  }

  /** A match: the chunk is kept, the whitespace run after it is dropped, a marker goes in. */
  lemma MatchStepKeepsNonSpace(line: string, p: nat, n: nat, e: nat, rest: seq<Piece>)
    requires p + n <= e <= |line|
    requires forall k :: p + n <= k < e ==> IsSpace(line[k])
    requires NonSpace(Kept(rest)) == NonSpace(line[e..])
    ensures NonSpace(Kept(Chars(line[p..p + n]) + [Br] + rest)) == NonSpace(line[p..])
  {
    var chunk := line[p..p + n];
    KeptOfMatch(chunk, rest);
    NonSpaceAppend(chunk, Kept(rest));
    NonSpaceOfMatch(line, p, n, e);
  }

  lemma KeptOfMatch(chunk: string, rest: seq<Piece>)
    ensures Kept(Chars(chunk) + [Br] + rest) == chunk + Kept(rest)
  {
    var head := Chars(chunk) + [Br];
    KeptAppend(head, rest);
    KeptOfMarked(Chars(chunk));
    CharsRoundTrip(chunk);
  }

  /** A trailing inserted marker adds nothing to the kept text. */
  lemma KeptOfMarked(ps: seq<Piece>)
    ensures Kept(ps + [Br]) == Kept(ps)
  {
    var br: seq<Piece> := [Br];
    KeptAppend(ps, br);
    assert br[1..] == [];
    assert Kept(br) == [];
  }

  /** Erasing whitespace from a match's span erases the whitespace run after the chunk. */
  lemma NonSpaceOfMatch(line: string, p: nat, n: nat, e: nat)
    requires p + n <= e <= |line|
    requires forall k :: p + n <= k < e ==> IsSpace(line[k])
    ensures NonSpace(line[p..]) == NonSpace(line[p..p + n]) + NonSpace(line[e..])
  {
    var chunk := line[p..p + n];
    var gap := line[p + n..e];
    assert line[p..] == chunk + (gap + line[e..]);
    NonSpaceAppend(chunk, gap + line[e..]);
    NonSpaceAppend(gap, line[e..]);
    NonSpaceOfSpaces(gap);
  }

  /**
   `steps` is the scan of `line` from `p`: each step starts where the one
   before it let the scan carry on, and the last one reaches the end.
   */
  predicate Tiles(line: string, p: nat, steps: seq<Step>)
    decreases |steps|
  {
    if |steps| == 0 then p == |line|
    else steps[0].at == p && RegexStep(line, steps[0]) && Tiles(line, Next(steps[0]), steps[1..])
  }

  /** What the replacement writes for a whole scan. */
  function Replaced(line: string, steps: seq<Step>): seq<Piece>
    decreases |steps|
  {
    if |steps| == 0 then [] else StepPieces(line, steps[0]) + Replaced(line, steps[1..])
  }

  /**
   Gsub is the regex's rewrite: the line from `p` is scanned into regex
   steps, and the rewrite is what the replacement writes for them. So every
   inserted marker follows a chunk of 1 to 20 characters that ends at
   whitespace or at the end of the line, and only whitespace is dropped.
   */
  lemma {:induction false} GsubFollowsRegex(line: string, p: nat)
    requires p <= |line|
    ensures exists steps :: Tiles(line, p, steps) && Replaced(line, steps) == Gsub(line, p)
    decreases |line| - p
  {
    if p == |line| {
      var none: seq<Step> := [];
      assert Tiles(line, p, none) && Replaced(line, none) == Gsub(line, p);
    } else {
      var step := ScanStep(line, p);
      GsubFollowsRegex(line, Next(step));
      var rest :| Tiles(line, Next(step), rest) && Replaced(line, rest) == Gsub(line, Next(step));
      var steps := [step] + rest;
      assert steps[0] == step && steps[1..] == rest;
      assert Tiles(line, p, steps);
      assert Replaced(line, steps) == Gsub(line, p);
    }
  }

  /**
   The scan is determined by the line: at each position either a match or
   a copy applies, the chunk and the whitespace run are the only ones that
   fit, so two scans from the same position are the same scan.
   */
  lemma {:induction false} TilingUnique(line: string, p: nat, a: seq<Step>, b: seq<Step>)
    requires Tiles(line, p, a) && Tiles(line, p, b)
    ensures a == b
    decreases |a|
  {
    if |a| > 0 && |b| > 0 {
      StepUnique(line, a[0], b[0]);
      TilingUnique(line, Next(a[0]), a[1..], b[1..]);
      assert a == [a[0]] + a[1..] && b == [b[0]] + b[1..];
    }
  }

  /** At one position at most one regex step applies. */
  lemma StepUnique(line: string, s: Step, t: Step)
    requires s.at == t.at && RegexStep(line, s) && RegexStep(line, t)
    ensures s == t
  {
  }

  /**
   One line of the summary after wrapping: a line of at most 20 characters
   is left alone, a longer one is rewritten and then right-stripped.
   */
  function WrapLine(line: string): (r: string)
    ensures |line| <= LineWidth ==> r == line
    ensures |line| > LineWidth ==> EndsWithMarker(r)
    ensures '\n' !in line ==> '\n' !in r
  {
    LinePiecesRender(line);
    if |line| > LineWidth then Rstrip(Render(Gsub(line, 0))) else line
  }

  /** The pieces behind WrapLine's result. */
  function LinePieces(line: string): seq<Piece> {
    if |line| > LineWidth then Gsub(line, 0) else Chars(line)
  }

  /**
   WrapLine renders its pieces: the rstrip after the rewrite never removes
   anything, because the rewrite of a long line always ends in a marker.
   */
  lemma LinePiecesRender(line: string)
    ensures |line| > LineWidth ==> Rstrip(Render(Gsub(line, 0))) == Render(Gsub(line, 0))
    ensures |line| > LineWidth ==> EndsWithMarker(Render(Gsub(line, 0)))
    ensures '\n' !in line ==> '\n' !in Render(LinePieces(line))
  {
    if |line| > LineWidth {
      var s := Render(Gsub(line, 0));
      RenderEndsWithMarker(Gsub(line, 0));
      RstripKeepsMarker(s);
    }
    if '\n' !in line {
      LinePiecesWithoutNewline(line);
    }
  }

  /** Text whose last five characters are "<br/>". */
  predicate EndsWithMarker(s: string) {
    |s| >= |BreakMarker| && s[|s| - |BreakMarker|..] == BreakMarker
  }

  /** A piece sequence ending in an inserted marker renders to text ending in "<br/>". */
  lemma RenderEndsWithMarker(ps: seq<Piece>)
    requires |ps| > 0 && ps[|ps| - 1] == Br
    ensures EndsWithMarker(Render(ps))
  {
    assert ps == ps[..|ps| - 1] + [Br];
    RenderAppend(ps[..|ps| - 1], [Br]);
  }

  /** rstrip keeps text ending in "<br/>" whole. */
  lemma RstripKeepsMarker(s: string)
    requires EndsWithMarker(s)
    ensures Rstrip(s) == s
  {
    assert s[|s| - 1] == BreakMarker[|BreakMarker| - 1];
  }

  lemma LinePiecesWithoutNewline(line: string)
    requires '\n' !in line
    ensures '\n' !in Render(LinePieces(line))
  {
    if |line| <= LineWidth {
      CharsRoundTrip(line);
    } else {
      var ps := Gsub(line, 0);
      assert CopiedFrom(ps, line);
      RenderWithoutChar(ps, '\n');
    }
  }

  /* ----------------------------------------------------------- the text */

  /** collect! over the lines. */
  function WrapAll(lines: seq<string>): (r: seq<string>)
    ensures |r| == |lines|
    ensures forall k :: 0 <= k < |lines| ==> r[k] == WrapLine(lines[k])
  {
    seq(|lines|, k requires 0 <= k < |lines| => WrapLine(lines[k]))
  }

  /**
   word_wrap: the wrapped lines joined with "<br/>". The result holds no
   line feed, and a single line of at most 20 characters comes back as it was.
   */
  function WrapText(text: string): (r: string)
    ensures '\n' !in r
    ensures '\n' !in text && |text| <= LineWidth ==> r == text
    ensures '\n' !in text && |text| > LineWidth ==> EndsWithMarker(r)
  {
    var lines := SplitLines(text);
    var wrapped := WrapAll(lines);
    JoinWithoutChar(wrapped, BreakMarker, '\n');
    SplitSingleLine(text);
    SingleLineWraps(text);
    Join(wrapped, BreakMarker)
  }

  /** A non-empty text without line feeds is wrapped as the one line it is. */
  lemma SingleLineWraps(text: string)
    ensures '\n' !in text && text != [] ==> Join(WrapAll(SplitLines(text)), BreakMarker) == WrapLine(text)
  {
    if '\n' !in text && text != [] {
      SplitSingleLine(text);
      assert WrapAll([text]) == [WrapLine(text)];
    }
  }

  /** A text without line feeds splits into itself, or into nothing when empty. */
  lemma SplitSingleLine(text: string)
    ensures '\n' !in text ==> SplitLines(text) == (if text == [] then [] else [text])
  {
    if '\n' !in text {
      assert FirstIndex(text, '\n') == |text|;
    }
  }

  /** The pieces behind WrapText's result: each line's pieces, a marker between lines. */
  function WrapPieces(lines: seq<string>): seq<Piece>
    decreases |lines|
  {
    if |lines| == 0 then []
    else if |lines| == 1 then LinePieces(lines[0])
    else LinePieces(lines[0]) + [Br] + WrapPieces(lines[1..])
  }

  lemma {:induction false} WrapPiecesRender(lines: seq<string>)
    ensures Render(WrapPieces(lines)) == Join(WrapAll(lines), BreakMarker)
    decreases |lines|
  {
    if |lines| == 1 {
      LinePiecesRender(lines[0]);
      CharsRoundTrip(lines[0]);
    } else if |lines| > 1 {
      WrapPiecesRender(lines[1..]);
      assert WrapAll(lines)[1..] == WrapAll(lines[1..]);
      LinePieceRendersWrapLine(lines[0]);
      RenderJoinStep(LinePieces(lines[0]), WrapPieces(lines[1..]));
    }
  }

  lemma LinePieceRendersWrapLine(line: string)
    ensures Render(LinePieces(line)) == WrapLine(line)
  {
    LinePiecesRender(line);
    if |line| <= LineWidth {
      CharsRoundTrip(line);
    }
  }

  lemma RenderJoinStep(first: seq<Piece>, rest: seq<Piece>)
    ensures Render(first + [Br] + rest) == Render(first) + BreakMarker + Render(rest)
  {
    RenderAppend(first + [Br], rest);
    RenderAppend(first, [Br]);
    assert Render([Br]) == BreakMarker;
  }

  lemma LinePiecesKeepNonSpace(line: string)
    ensures NonSpace(Kept(LinePieces(line))) == NonSpace(line)
  {
    if |line| > LineWidth {
      GsubKeepsNonSpace(line, 0);
      assert line[0..] == line;
    } else {
      CharsRoundTrip(line);
    }
  }

  lemma {:induction false} WrapPiecesKeepNonSpace(lines: seq<string>)
    ensures NonSpace(Kept(WrapPieces(lines))) == NonSpace(Join(lines, "\n"))
    decreases |lines|
  {
    if |lines| >= 1 {
      LinePiecesKeepNonSpace(lines[0]);
    }
    if |lines| > 1 {
      var first := LinePieces(lines[0]);
      var rest := WrapPieces(lines[1..]);
      WrapPiecesKeepNonSpace(lines[1..]);
      KeptAppend(first + [Br], rest);
      KeptAppend(first, [Br]);
      assert Kept(first + [Br]) == Kept(first);
      NonSpaceAppend(Kept(first), Kept(rest));
      NonSpaceAppend(lines[0] + "\n", Join(lines[1..], "\n"));
      NonSpaceAppend(lines[0], "\n");
      NonSpaceOfSpaces("\n");
    }
  }

  /**
   What word wrapping preserves: its result is the rendering of a piece
   sequence in which erasing the inserted markers and all whitespace leaves
   exactly the summary with its whitespace erased.
   */
  lemma WrapTextKeepsNonSpace(text: string)
    ensures Render(WrapPieces(SplitLines(text))) == WrapText(text)
    ensures NonSpace(Kept(WrapPieces(SplitLines(text)))) == NonSpace(text)
  {
    var lines := SplitLines(text);
    WrapPiecesRender(lines);
    WrapPiecesKeepNonSpace(lines);
    SplitKeepsNonSpace(text);
  }

  /** Splitting into lines and joining them back loses only whitespace. */
  lemma SplitKeepsNonSpace(text: string)
    ensures NonSpace(Join(SplitLines(text), "\n")) == NonSpace(text)
  {
    SplitLinesRejoin(text);
    var joined := Join(SplitLines(text), "\n");
    var tail := text[|joined|..];
    forall k | 0 <= k < |tail| ensures IsSpace(tail[k]) {
      assert tail[k] == text[|joined| + k];
    }
    assert text == joined + tail;
    NonSpaceAppend(joined, tail);
    NonSpaceOfSpaces(tail);
  }
}
