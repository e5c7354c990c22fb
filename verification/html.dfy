/**
 The HTML side of schedule.rb: `add_event` turns one event into a
 schedule box, `add_schedule` lays the boxes out in rows under date titles.
 Builder's markup is abstracted into the Box record and the tokens of
 module Layout; the per-track pipeline sorts the parsed events first, as
 `parse_ical_feed` does.
 */
module HtmlSchedule {
  import opened Events
  import opened TimeFormat
  import opened WordWrap
  import opened Padding
  import opened Grouping
  import opened Layout
  import opened Sorting

  /** time_element: the display label, and the instant the datetime attribute carries. */
  datatype TimeBadge = TimeBadge(shown: string, instant: Timestamp)

  /**
   One schedule-box: the two time badges (written with "&nbsp;-&nbsp;"
   between them), the h3 title and the presenter paragraph.
   */
  datatype Box = Box(start: TimeBadge, finish: TimeBadge, title: string, presenter: string)

  /** A title as tall as every other: one line, at least five markers. */
  predicate EvenTitle(title: string) {
    CountBreaks(title) >= MinBreaks && '\n' !in title
  }

  /**
   `title` is the h3 of `summary`: the wrapped summary, followed only by
   whole padding pairs, with max(5, n) markers where n is the wrapped
   summary's count.
   */
  predicate TitleOf(title: string, summary: string) {
    var w := WrapText(summary);
    && |w| <= |title| && title[..|w|] == w && IsPadding(title[|w|..])
    && CountBreaks(title) == Max(MinBreaks, CountBreaks(w))
  }

  /** The h3 of a box: the wrapped summary padded to at least five markers. */
  function BoxTitle(summary: string): (r: string)
    ensures TitleOf(r, summary)
    ensures EvenTitle(r)
    ensures '\n' !in summary && |summary| > LineWidth ==> CountBreaks(WrapText(summary)) >= 1
  {
    var w := WrapText(summary);
    LongSummaryCounted(summary);
    var r := PadSummary(w);
    PaddingHasNoNewline(r[|w|..]);
    assert r == w + r[|w|..];
    r
  }

  /** A one-line summary longer than 20 characters brings a counted marker of its own. */
  lemma LongSummaryCounted(summary: string)
    ensures '\n' !in summary && |summary| > LineWidth ==> CountBreaks(WrapText(summary)) >= 1
  {
    if '\n' !in summary && |summary| > LineWidth {
      EndsMarkerCounts(WrapText(summary));
    }
  }

  /** The presenter paragraph: "&nbsp;" for a missing presenter, the text itself otherwise. */
  function PresenterSlot(p: Option<string>): string {
    if p.None? then Nbsp else p.value
  }

  /**
   A badge for `t`: it carries `t`, its label has display_time's "h:mm AM"
   form for t, and the label reads back to t's hour and minute.
   */
  predicate BadgeFor(b: TimeBadge, t: Timestamp) {
    b.instant == t && LabelFor(b.shown, t) && ParseDisplayTime(b.shown) == Some((t.hour, t.minute))
  }

  /** time_element: a badge that reads back to the hour and minute of its instant. */
  function TimeElement(t: Timestamp): (b: TimeBadge)
    ensures BadgeFor(b, t)
  {
    TimeBadge(DisplayTime(t), t)
  }

  /**
   add_event: both badges show their timestamps as display_time does, the
   title is the event's summary wrapped and padded, with at least five
   markers and no line feed, and
   the presenter paragraph is "&nbsp;" exactly when there is no presenter
   and otherwise the presenter text as it came, untrimmed even when blank.
   */
  function EventBox(e: Event): (b: Box)
    ensures BadgeFor(b.start, e.from) && BadgeFor(b.finish, e.to)
    ensures TitleOf(b.title, e.summary) && EvenTitle(b.title)
    ensures e.presenter.None? ==> b.presenter == Nbsp
    ensures e.presenter.Some? ==> b.presenter == e.presenter.value
  {
    Box(TimeElement(e.from), TimeElement(e.to), BoxTitle(e.summary), PresenterSlot(e.presenter))
  }

  /**
   add_schedule over one track's events: each maximal run of one date gets
   its title and then exactly its own events as boxes, in order, with a
   blank title row between runs.
   */
  function AddSchedule(es: seq<Event>): (ts: seq<Token<Box>>)
    ensures EmitsGroups(ts, Groups(es), EventBox)
  {
    Schedule(es, EventBox)
  }

  /**
   One track: the parsed events sorted by start, then laid out. The rows
   are the layout of some ordering of the parsed events by start time; the
   date titles come out in strictly ascending date order, one per date,
   with a blank title between consecutive dates only; and a track with
   events always gets at least one title.
   */
  function TrackRows(parsed: seq<Event>): (ts: seq<Token<Box>>)
    ensures exists s :: multiset(s) == multiset(parsed) && SortedByFrom(s) && ts == AddSchedule(s)
    ensures var ds := Titles(ts);
      && (forall i :: 0 <= i < |ds| - 1 ==> DateKey(ds[i]) < DateKey(ds[i + 1]))
      && Separators(ts) == (if |ds| == 0 then 0 else |ds| - 1)
      && (ds == [] <==> parsed == [])
  {
    var sorted := SortByFrom(parsed);
    SortedTitlesAscend(sorted, EventBox);
    assert |sorted| == |multiset(sorted)| == |parsed|;
    AddSchedule(sorted)
  }
}
