/**
 The event records the renderer works on, as the feed parser leaves them:
 a summary, an optional presenter (the iCal description), an optional
 location, and start/finish timestamps already moved to the +01:00 offset.
 */
module Events {

  datatype Option<T> = None | Some(value: T)

  type Month = m: int | 1 <= m <= 12 witness 1
  type Day = d: int | 1 <= d <= 31 witness 1
  type Hour = h: int | 0 <= h < 24
  type Minute = m: int | 0 <= m < 60
  /** Up to 60 to admit a leap second. */
  type Second = s: int | 0 <= s <= 60

  /** A calendar date, what DateTime#to_date keeps. */
  datatype Date = Date(year: int, month: Month, day: Day)

  /** A wall-clock time at the fixed +01:00 offset. */
  datatype Timestamp = Timestamp(date: Date, hour: Hour, minute: Minute, second: Second)

  datatype Event = Event(
    summary: string,
    presenter: Option<string>,
    location: Option<string>,
    from: Timestamp,
    to: Timestamp)

  /** The calendar date of an event's start, the key both renderers group on. */
  function DateOf(e: Event): Date {
    e.from.date
  }

  /** Number of distinct seconds in one day's sort keys. */
  const DaySpan: int := 24 * 60 * 61

  /** A number that orders dates the way the calendar does. */
  function DateKey(d: Date): int {
    (d.year * 13 + d.month) * 32 + d.day
  }

  /** A number that orders timestamps at one fixed offset by the instant they denote. */
  function SortKey(t: Timestamp): int {
    DateKey(t.date) * DaySpan + (t.hour * 60 + t.minute) * 61 + t.second
  }

  /** Different dates get different keys. */
  lemma DateKeyInjective(a: Date, b: Date)
    requires DateKey(a) == DateKey(b)
    ensures a == b
  {
    var ya := a.year * 13 + a.month;
    var yb := b.year * 13 + b.month;
    assert ya * 32 - yb * 32 == b.day - a.day;
    assert ya == yb;
    assert a.year * 13 - b.year * 13 == b.month - a.month;
  }

  /** Timestamps in key order have their dates in key order. */
  lemma SortKeyOrdersDates(a: Timestamp, b: Timestamp)
    requires SortKey(a) <= SortKey(b)
    ensures DateKey(a.date) <= DateKey(b.date)
  {
  }

  /** Events in ascending order of start, as parse_ical_feed leaves them. */
  predicate SortedByFrom(es: seq<Event>) {
    forall i, j :: 0 <= i < j < |es| ==> SortKey(es[i].from) <= SortKey(es[j].from)
  }
}
