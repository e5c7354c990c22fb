/**
 The plain-text side of schedule.rb: `print_schedule` writes, per date, a
 heading line, one line per event and a blank line between dates. The
 heading text (full_date) is abstracted into the date it names; the lines
 themselves are modelled character for character.
 */
module TextSchedule {
  import opened Events
  import opened Strings
  import opened TimeFormat
  import opened Layout
  import opened Grouping
  import opened HtmlSchedule
  import opened Padding

  /** String interpolation of a field that may be nil: nil shows as "". */
  function Interpolated(v: Option<string>): string {
    if v.None? then "" else v.value
  }

  /**
   The presenter part of a line: nothing when the presenter is missing or
   all whitespace, otherwise " - " and the trimmed presenter.
   */
  function PresenterPart(p: Option<string>): (r: string)
    ensures r == [] <==> AllStrip(Interpolated(p))
    ensures r != [] ==> r == " - " + Strip(Interpolated(p))
  {
    var shown := Strip(Interpolated(p));
    if shown == [] then [] else " - " + shown
  }

  /** The first 13 characters of a line: "HH:MM-HH:MM: " reading back to the start and finish times. */
  predicate ClockPrefix(line: string, e: Event) {
    && |line| >= 13
    && ParseClock24(line[..5]) == Some((e.from.hour, e.from.minute))
    && line[5] == '-'
    && ParseClock24(line[6..11]) == Some((e.to.hour, e.to.minute))
    && line[11..13] == ": "
  }

  /**
   `line` shows `e` as "HH:MM-HH:MM: summary - presenter, location": the
   clock prefix, then the summary copied unwrapped, then the presenter part
   as PresenterPart says, and at the end ", " and the location, empty when
   there is none.
   */
  predicate ShowsEvent(line: string, e: Event) {
    var loc := Interpolated(e.location); var n := |e.summary|;
    && |line| >= 15 + n + |loc|
    && ClockPrefix(line, e)
    && line[13..13 + n] == e.summary
    && line[13 + n..|line| - |loc| - 2] == PresenterPart(e.presenter)
    && line[|line| - |loc| - 2..] == ", " + loc
  }

  /** One event line of print_schedule. */
  function FormatLine(e: Event): (line: string)
    ensures ShowsEvent(line, e)
  {
    var line := Clock24(e.from) + "-" + Clock24(e.to) + ": " + e.summary
      + PresenterPart(e.presenter) + ", " + Interpolated(e.location);
    LineShows(e, line);
    line
  }

  lemma LineShows(e: Event, line: string)
    requires line == Clock24(e.from) + "-" + Clock24(e.to) + ": " + e.summary
      + PresenterPart(e.presenter) + ", " + Interpolated(e.location)
    ensures ShowsEvent(line, e)
  {
    LineLayout(line, Clock24(e.from), Clock24(e.to), e.summary, PresenterPart(e.presenter), Interpolated(e.location));
    ClockPrefixOf(line, e);
  }

  lemma ClockPrefixOf(line: string, e: Event)
    requires |line| >= 13 && line[..5] == Clock24(e.from) && line[5] == '-'
    requires line[6..11] == Clock24(e.to) && line[11..13] == ": "
    ensures ClockPrefix(line, e)
  {
  }

  /** Where the parts of a line sit. */
  lemma LineLayout(line: string, a: string, b: string, s: string, p: string, l: string)
    requires |a| == 5 && |b| == 5
    requires line == a + "-" + b + ": " + s + p + ", " + l
    ensures |line| == 15 + |s| + |p| + |l|
    ensures line[..5] == a && line[5] == '-' && line[6..11] == b && line[11..13] == ": "
    ensures line[13..13 + |s|] == s
    ensures line[13 + |s|..|line| - |l| - 2] == p
    ensures line[|line| - |l| - 2..] == ", " + l
  {
  }

  /**
   print_schedule over one track's events: each maximal run of one date
   gets its heading and then exactly its own event lines, in order, with a
   blank line between runs.
   */
  function PrintSchedule(es: seq<Event>): (ts: seq<Token<string>>)
    ensures EmitsGroups(ts, Groups(es), FormatLine)
  {
    Schedule(es, FormatLine)
  }

  /**
   The two renderers treat a blank presenter differently: the HTML slot
   writes it as it is, since only a missing presenter becomes "&nbsp;",
   while the text line leaves the presenter part out.
   */
  lemma BlankPresenterDiffers(e: Event)
    requires e.presenter.Some? && e.presenter.value != [] && AllStrip(e.presenter.value)
    ensures EventBox(e).presenter == e.presenter.value != Nbsp
    ensures PresenterPart(e.presenter) == []
  {
    var p := e.presenter.value;
    assert IsStripChar(p[0]) && !IsStripChar(Nbsp[0]);
    assert Interpolated(e.presenter) == p;
  }
}
