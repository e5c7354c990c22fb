/**
 The control flow `add_schedule` and `print_schedule` of schedule.rb share.
 Both take the first event, emit a title for its date, emit every event of
 the run of that date, and then emit a separator before going round again.
 The end of the events is signalled by StopIteration from inside the run,
 which skips the separator: it appears only between dates, never after the
 last one, and an empty event list emits nothing at all.

 The runs are the ones module Grouping cuts; the emitted output is a list
 of tokens, and the per-event formatting (an HTML box or a text line) is a
 parameter.
 */
module Layout {
  import opened Events
  import opened Grouping

  datatype Token<T> =
    | DateTitle(date: Date)       // add_title_row(full_date(...)) / puts full_date(...)
    | Entries(items: seq<T>)      // the row of event boxes / the event lines
    | Separator                   // add_title_row('') / the bare puts

  function MapEvents<T>(format: Event -> T, es: seq<Event>): (r: seq<T>)
    ensures |r| == |es|
    ensures forall i :: 0 <= i < |es| ==> r[i] == format(es[i])
  {
    seq(|es|, i requires 0 <= i < |es| => format(es[i]))
  }

  /** The tokens of the date groups, in order: title and entries per group, a separator between groups. */
  function Emit<T>(gs: seq<Group>, format: Event -> T): seq<Token<T>>
    decreases |gs|
  {
    if |gs| == 0 then []
    else
      [DateTitle(gs[0].date), Entries(MapEvents(format, gs[0].events))]
        + (if |gs| == 1 then [] else [Separator] + Emit(gs[1..], format))
  }

  /**
   `ts` lays out `gs` position by position: group i owns tokens 3i (its
   date's title) and 3i + 1 (its own events, formatted, in order), token
   3i + 2 is a separator when a further group follows, and nothing else
   is emitted.
   */
  predicate EmitsGroups<T(==)>(ts: seq<Token<T>>, gs: seq<Group>, format: Event -> T) {
    && |ts| == (if |gs| == 0 then 0 else 3 * |gs| - 1)
    && forall i :: 0 <= i < |gs| ==>
      && ts[3 * i] == DateTitle(gs[i].date)
      && ts[3 * i + 1] == Entries(MapEvents(format, gs[i].events))
      && (i + 1 < |gs| ==> ts[3 * i + 2] == Separator)
  }

  /**
   The pass over the events: every maximal run of one date, in order, gets
   its title followed by exactly its own events, and runs are separated.
   */
  function Schedule<T(==)>(es: seq<Event>, format: Event -> T): (ts: seq<Token<T>>)
    ensures EmitsGroups(ts, Groups(es), format)
  {
    EmitLayout(Groups(es), format);
    Emit(Groups(es), format)
  }

  lemma {:induction false} EmitLayout<T>(gs: seq<Group>, format: Event -> T)
    ensures EmitsGroups(Emit(gs, format), gs, format)
    decreases |gs|
  {
    if |gs| > 1 {
      var g := gs[0];
      var rest := Emit(gs[1..], format);
      var head: seq<Token<T>> := [DateTitle(g.date), Entries(MapEvents(format, g.events))];
      EmitLayout(gs[1..], format);
      EmitsCons(g, gs[1..], rest, format);
      assert head + ([Separator] + rest) == [DateTitle(g.date), Entries(MapEvents(format, g.events)), Separator] + rest;
      assert gs == [g] + gs[1..];
    }
  }

  /** One more group in front: its title, its entries and a separator go in front of the rest's tokens. */
  lemma EmitsCons<T>(g: Group, gs: seq<Group>, rest: seq<Token<T>>, format: Event -> T)
    requires |gs| > 0 && EmitsGroups(rest, gs, format)
    ensures EmitsGroups([DateTitle(g.date), Entries(MapEvents(format, g.events)), Separator] + rest, [g] + gs, format)
  {
    var ts := [DateTitle(g.date), Entries(MapEvents(format, g.events)), Separator] + rest;
    forall i | 0 < i < |gs| + 1
      ensures ts[3 * i] == DateTitle(([g] + gs)[i].date)
      ensures ts[3 * i + 1] == Entries(MapEvents(format, ([g] + gs)[i].events))
      ensures i + 1 < |gs| + 1 ==> ts[3 * i + 2] == Separator
    {
      ShiftedGroup(g, gs, rest, format, i);
    }
  }

  /** Group i of the longer list is group i - 1 of the shorter, three tokens further on. */
  lemma ShiftedGroup<T>(g: Group, gs: seq<Group>, rest: seq<Token<T>>, format: Event -> T, i: nat)
    requires 0 < i <= |gs| && EmitsGroups(rest, gs, format)
    ensures var ts := [DateTitle(g.date), Entries(MapEvents(format, g.events)), Separator] + rest;
      && ts[3 * i] == DateTitle(([g] + gs)[i].date)
      && ts[3 * i + 1] == Entries(MapEvents(format, ([g] + gs)[i].events))
      && (i < |gs| ==> ts[3 * i + 2] == Separator)
  {
    var j := i - 1;
    assert ([g] + gs)[i] == gs[j];
    assert 3 * j + 1 < |rest|;
  }

  /* ------------------------------------------ reading a token list back */

  /** The dates of the title tokens, in order. */
  function Titles<T>(ts: seq<Token<T>>): seq<Date>
    decreases |ts|
  {
    if |ts| == 0 then []
    else (if ts[0].DateTitle? then [ts[0].date] else []) + Titles(ts[1..])
  }

  /** How many separators there are. */
  function Separators<T>(ts: seq<Token<T>>): nat
    decreases |ts|
  {
    if |ts| == 0 then 0
    else (if ts[0].Separator? then 1 else 0) + Separators(ts[1..])
  }

  /** All formatted events, in the order they are emitted. */
  function Items<T>(ts: seq<Token<T>>): seq<T>
    decreases |ts|
  {
    if |ts| == 0 then []
    else (if ts[0].Entries? then ts[0].items else []) + Items(ts[1..])
  }

  lemma ReadBackAppend<T>(a: seq<Token<T>>, b: seq<Token<T>>)
    ensures Titles(a + b) == Titles(a) + Titles(b)
    ensures Separators(a + b) == Separators(a) + Separators(b)
    ensures Items(a + b) == Items(a) + Items(b)
  {
    TitlesAppend(a, b);
    SeparatorsAppend(a, b);
    ItemsAppend(a, b);
  }

  lemma {:induction false} TitlesAppend<T>(a: seq<Token<T>>, b: seq<Token<T>>)
    ensures Titles(a + b) == Titles(a) + Titles(b)
    decreases |a|
  {
    if |a| == 0 {
      assert a + b == b;
    } else {
      assert (a + b)[0] == a[0];
      assert (a + b)[1..] == a[1..] + b;
      TitlesAppend(a[1..], b);
      var first := if a[0].DateTitle? then [a[0].date] else [];
      assert Titles(a + b) == first + Titles(a[1..] + b);
      assert Titles(a) == first + Titles(a[1..]);
    }
  }

  lemma {:induction false} SeparatorsAppend<T>(a: seq<Token<T>>, b: seq<Token<T>>)
    ensures Separators(a + b) == Separators(a) + Separators(b)
    decreases |a|
  {
    if |a| == 0 {
      assert a + b == b;
    } else {
      assert (a + b)[1..] == a[1..] + b;
      SeparatorsAppend(a[1..], b);
    }
  }

  lemma {:induction false} ItemsAppend<T>(a: seq<Token<T>>, b: seq<Token<T>>)
    ensures Items(a + b) == Items(a) + Items(b)
    decreases |a|
  {
    if |a| == 0 {
      assert a + b == b;
    } else {
      assert (a + b)[1..] == a[1..] + b;
      ItemsAppend(a[1..], b);
    }
  }

  /** The dates of the groups, in order. */
  function GroupDates(gs: seq<Group>): (ds: seq<Date>)
    ensures |ds| == |gs|
    ensures forall i :: 0 <= i < |gs| ==> ds[i] == gs[i].date
  {
    seq(|gs|, i requires 0 <= i < |gs| => gs[i].date)
  }

  /**
   The shape of the output: for N date groups there are N titles, one per
   group and with its date, N - 1 separators, and the formatted events in
   their original order. Output begins with a title and, when there are
   events, ends with the last run's entries rather than a separator.
   */
  lemma ScheduleShape<T>(es: seq<Event>, format: Event -> T)
    ensures var ts := Schedule(es, format); var gs := Groups(es);
      && Titles(ts) == GroupDates(gs)
      && Separators(ts) == (if |gs| == 0 then 0 else |gs| - 1)
      && Items(ts) == MapEvents(format, es)
      && (ts == [] <==> es == [])
      && (|ts| > 0 ==> ts[0].DateTitle? && ts[|ts| - 1].Entries?)
  {
    EmitShape(Groups(es), format);
  }

  lemma EmitShape<T>(gs: seq<Group>, format: Event -> T)
    ensures var ts := Emit(gs, format);
      && Titles(ts) == GroupDates(gs)
      && Separators(ts) == (if |gs| == 0 then 0 else |gs| - 1)
      && Items(ts) == MapEvents(format, Flatten(gs))
      && (ts == [] <==> gs == [])
      && (|ts| > 0 ==> ts[0].DateTitle? && ts[|ts| - 1].Entries?)
  {
    EmitReadBack(gs, format);
    EmitEnds(gs, format);
  }

  lemma {:induction false} EmitReadBack<T>(gs: seq<Group>, format: Event -> T)
    ensures var ts := Emit(gs, format);
      && Titles(ts) == GroupDates(gs)
      && Separators(ts) == (if |gs| == 0 then 0 else |gs| - 1)
      && Items(ts) == MapEvents(format, Flatten(gs))
    decreases |gs|
  {
    if |gs| > 0 {
      var g := gs[0];
      var items := MapEvents(format, g.events);
      var rest := Emit(gs[1..], format);
      EmitReadBack(gs[1..], format);
      ReadBackStep(g.date, items, rest, |gs| == 1);
      assert gs == [g] + gs[1..];
      DatesCons(g, gs[1..]);
      MapEventsAppend(format, g.events, Flatten(gs[1..]));
    }
  }

  /** The output is empty only for no groups; otherwise it opens with a title and closes with entries. */
  lemma EmitEnds<T>(gs: seq<Group>, format: Event -> T)
    ensures var ts := Emit(gs, format);
      && (ts == [] <==> gs == [])
      && (|ts| > 0 ==> ts[0].DateTitle? && ts[|ts| - 1].Entries?)
  {
    var ts := Emit(gs, format);
    EmitLayout(gs, format);
    if |gs| > 0 {
      var last := |gs| - 1;
      assert ts[0] == DateTitle(gs[0].date);
      assert ts[3 * last + 1] == Entries(MapEvents(format, gs[last].events));
    }
  }

  /**
   On events sorted by start the title dates strictly ascend, so no date is
   titled twice, and the separators number one fewer than the titles.
   */
  lemma SortedTitlesAscend<T>(es: seq<Event>, format: Event -> T)
    requires SortedByFrom(es)
    ensures var ts := Schedule(es, format); var ds := Titles(ts);
      && (forall i :: 0 <= i < |ds| - 1 ==> DateKey(ds[i]) < DateKey(ds[i + 1]))
      && Separators(ts) == (if |ds| == 0 then 0 else |ds| - 1)
      && (ds == [] <==> es == [])
  {
    ScheduleShape(es, format);
    GroupDatesAscend(es);
    assert DatesAscend(Groups(es));
  }

  /**
   Title, entries, then separator, title, entries again as often as there
   are further dates: every run of entries is non-empty and follows its
   title directly, and a separator always sits between two such pairs.
   */
  predicate Alternates<T>(ts: seq<Token<T>>)
    decreases |ts|
  {
    && |ts| >= 2 && ts[0].DateTitle? && ts[1].Entries? && |ts[1].items| > 0
    && (|ts| == 2 || (|ts| > 3 && ts[2].Separator? && Alternates(ts[3..])))
  }

  /** The output of a non-empty event list has the alternating shape. */
  lemma ScheduleAlternates<T>(es: seq<Event>, format: Event -> T)
    requires |es| > 0
    ensures Alternates(Schedule(es, format))
  {
    EmitAlternates(Groups(es), format);
  }

  lemma {:induction false} EmitAlternates<T>(gs: seq<Group>, format: Event -> T)
    requires |gs| > 0
    requires forall i :: 0 <= i < |gs| ==> Uniform(gs[i])
    ensures Alternates(Emit(gs, format))
    decreases |gs|
  {
    var ts := Emit(gs, format);
    assert ts[1] == Entries(MapEvents(format, gs[0].events));
    assert Uniform(gs[0]);
    if |gs| > 1 {
      EmitAlternates(gs[1..], format);
      assert ts[3..] == Emit(gs[1..], format);
    }
  }

  lemma ReadBackStep<T>(d: Date, items: seq<T>, rest: seq<Token<T>>, last: bool)
    requires last ==> rest == []
    ensures var ts := [DateTitle(d), Entries(items)] + (if last then [] else [Separator] + rest);
      && Titles(ts) == [d] + Titles(rest)
      && Separators(ts) == (if last then 0 else 1 + Separators(rest))
      && Items(ts) == items + Items(rest)
      && ts[0].DateTitle?
      && (last ==> ts[|ts| - 1].Entries?)
      && (!last && |rest| > 0 ==> ts[|ts| - 1] == rest[|rest| - 1])
  {
    var head: seq<Token<T>> := [DateTitle(d), Entries(items)];
    HeadReadBack(d, items);
    if !last {
      var sep: seq<Token<T>> := [Separator];
      ReadBackAppend(head, sep + rest);
      ReadBackAppend(sep, rest);
      SeparatorReadBack<T>();
      assert head + ([Separator] + rest) == head + (sep + rest);
    } else {
      assert Titles(rest) == [] && Items(rest) == [] && Separators(rest) == 0;
      assert head + [] == head;
    }
  }

  lemma SeparatorReadBack<T>()
    ensures var sep: seq<Token<T>> := [Separator];
      Titles(sep) == [] && Items(sep) == [] && Separators(sep) == 1
  {
    var sep: seq<Token<T>> := [Separator];
    assert sep[1..] == [];
  }

  lemma MapEventsAppend<T>(format: Event -> T, a: seq<Event>, b: seq<Event>)
    ensures MapEvents(format, a + b) == MapEvents(format, a) + MapEvents(format, b)
  {
  }

  lemma DatesCons(g: Group, rest: seq<Group>)
    ensures GroupDates([g] + rest) == [g.date] + GroupDates(rest)
  {
    var gs := [g] + rest;
    assert forall i :: 0 < i < |gs| ==> gs[i] == rest[i - 1];
  }

  lemma HeadReadBack<T>(d: Date, items: seq<T>)
    ensures var h: seq<Token<T>> := [DateTitle(d), Entries(items)];
      Titles(h) == [d] && Separators(h) == 0 && Items(h) == items
  {
    var h: seq<Token<T>> := [DateTitle(d), Entries(items)];
    var e: seq<Token<T>> := [Entries(items)];
    var none: seq<Token<T>> := [];
    assert h[1..] == e && e[1..] == none;
    assert Titles(e) == [] + Titles(none);
    assert Separators(e) == 0 + Separators(none);
    assert Items(e) == items + Items(none);
  }
}
