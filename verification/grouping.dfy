/**
 The date grouping shared by `add_schedule` and `print_schedule` in
 schedule.rb: one pass over the events that cuts wherever the date of an
 event's start differs from the date of the run it is in. Nothing is
 re-sorted, so the groups are the maximal runs of equal dates.
 */
module Grouping {
  import opened Events

  datatype Group = Group(date: Date, events: seq<Event>)

  /** How many leading events start on date `d`: the inner while loop of both renderers. */
  function RunLength(es: seq<Event>, d: Date): (k: nat)
    ensures k <= |es|
    ensures forall i :: 0 <= i < k ==> DateOf(es[i]) == d
    ensures k < |es| ==> DateOf(es[k]) != d
    decreases |es|
  {
    if |es| == 0 || DateOf(es[0]) != d then 0 else 1 + RunLength(es[1..], d)
  }

  /** The events of all groups, in order. */
  function Flatten(gs: seq<Group>): seq<Event>
    decreases |gs|
  {
    if |gs| == 0 then [] else gs[0].events + Flatten(gs[1..])
  }

  predicate Uniform(g: Group) {
    |g.events| > 0 && forall i :: 0 <= i < |g.events| ==> DateOf(g.events[i]) == g.date
  }

  /**
   `gs` cuts `es` into maximal runs of one date: together the groups are
   `es`, each group is non-empty and all of one date, and neighbouring
   groups have different dates.
   */
  predicate IsDateRuns(es: seq<Event>, gs: seq<Group>) {
    && Flatten(gs) == es
    && (forall i :: 0 <= i < |gs| ==> Uniform(gs[i]))
    && (forall i :: 0 <= i < |gs| - 1 ==> gs[i].date != gs[i + 1].date)
  }

  /** The grouping pass. Empty input gives no groups. */
  function Groups(es: seq<Event>): (gs: seq<Group>)
    ensures IsDateRuns(es, gs)
    ensures |es| > 0 ==> |gs| > 0 && gs[0].date == DateOf(es[0])
    ensures |gs| <= |es|
    decreases |es|
  {
    if |es| == 0 then []
    else
      var d := DateOf(es[0]);
      var k := RunLength(es, d);
      var rest := Groups(es[k..]);
      RunsCons(es, k, rest);
      [Group(d, es[..k])] + rest
  }

  /** A maximal first run in front of a cut of the rest is a cut of the whole. */
  lemma RunsCons(es: seq<Event>, k: nat, rest: seq<Group>)
    requires 0 < k <= |es|
    requires forall i :: 0 <= i < k ==> DateOf(es[i]) == DateOf(es[0])
    requires k < |es| ==> DateOf(es[k]) != DateOf(es[0])
    requires IsDateRuns(es[k..], rest)
    requires k < |es| ==> |rest| > 0 && rest[0].date == DateOf(es[k])
    requires k == |es| ==> rest == []
    ensures IsDateRuns(es, [Group(DateOf(es[0]), es[..k])] + rest)
  {
    var g := Group(DateOf(es[0]), es[..k]);
    var gs := [g] + rest;
    assert gs[1..] == rest;
    assert Flatten(gs) == es[..k] + es[k..];
    assert es[..k] + es[k..] == es;
    assert Uniform(g);
    forall i | 0 <= i < |gs| ensures Uniform(gs[i]) {
      if i > 0 {
        assert gs[i] == rest[i - 1];
      }
    }
    forall i | 0 <= i < |gs| - 1 ensures gs[i].date != gs[i + 1].date {
      if i > 0 {
        assert gs[i] == rest[i - 1] && gs[i + 1] == rest[i];
      }
    }
  }

  /**
   The grouping pass is the only way to cut the events into maximal date
   runs: any such cut is the one it makes.
   */
  lemma {:induction false} DateRunsUnique(es: seq<Event>, gs: seq<Group>)
    requires IsDateRuns(es, gs)
    ensures gs == Groups(es)
    decreases |es|
  {
    if |gs| > 0 {
      var g := gs[0];
      var n := |g.events|;
      FirstRunMaximal(es, gs);
      DateRunsUnique(es[n..], gs[1..]);
      assert gs == [g] + gs[1..];
    } else {
      assert es == [];
    }
  }

  /** The first group of a cut into maximal runs is the first run the grouping pass finds. */
  lemma FirstRunMaximal(es: seq<Event>, gs: seq<Group>)
    requires IsDateRuns(es, gs) && |gs| > 0
    ensures var g := gs[0]; var n := |g.events|;
      && |es| > 0 && g.date == DateOf(es[0])
      && RunLength(es, g.date) == n && es[..n] == g.events
      && IsDateRuns(es[n..], gs[1..])
  {
    var g := gs[0];
    var tail := Flatten(gs[1..]);
    assert es == g.events + tail;
    var d := g.date;
    var n := |g.events|;
    assert es[0] == g.events[0];
    assert forall i :: 0 <= i < n ==> es[i] == g.events[i];
    if n < |es| {
      assert |gs| > 1 && tail == gs[1].events + Flatten(gs[2..]);
      assert es[n] == gs[1].events[0];
    }
    assert RunLength(es, d) == n;
    assert es[..n] == g.events;
    assert es[n..] == tail;
  }

  /** Each group's date is strictly later than the one before. */
  predicate DatesAscend(gs: seq<Group>) {
    forall i :: 0 <= i < |gs| - 1 ==> DateKey(gs[i].date) < DateKey(gs[i + 1].date)
  }

  /**
   On events sorted by start, the groups come out in strictly ascending
   date order.
   */
  lemma {:induction false} GroupDatesAscend(es: seq<Event>)
    requires SortedByFrom(es)
    ensures DatesAscend(Groups(es))
    decreases |es|
  {
    if |es| > 0 {
      var d := DateOf(es[0]);
      var k := RunLength(es, d);
      SortedSuffix(es, k);
      GroupDatesAscend(es[k..]);
      if k < |es| {
        FirstCutAscends(es, k);
      }
      AscendCons(Group(d, es[..k]), Groups(es[k..]));
    }
  }

  lemma SortedSuffix(es: seq<Event>, k: nat)
    requires SortedByFrom(es) && k <= |es|
    ensures SortedByFrom(es[k..])
  {
    forall i, j | 0 <= i < j < |es| - k ensures SortKey(es[k..][i].from) <= SortKey(es[k..][j].from) {
      assert es[k..][i] == es[k + i] && es[k..][j] == es[k + j];
    }
  }

  lemma AscendCons(g: Group, rest: seq<Group>)
    requires DatesAscend(rest)
    requires |rest| > 0 ==> DateKey(g.date) < DateKey(rest[0].date)
    ensures DatesAscend([g] + rest)
  {
    var gs := [g] + rest;
    forall i | 0 <= i < |gs| - 1 ensures DateKey(gs[i].date) < DateKey(gs[i + 1].date) {
      if i > 0 {
        assert gs[i] == rest[i - 1] && gs[i + 1] == rest[i];
      }
    }
  }

  /** Where the first run ends, the date moves strictly forward. */
  lemma FirstCutAscends(es: seq<Event>, k: nat)
    requires SortedByFrom(es)
    requires 0 < k < |es| && k == RunLength(es, DateOf(es[0]))
    ensures DateKey(DateOf(es[0])) < DateKey(DateOf(es[k]))
  {
    SortKeyOrdersDates(es[0].from, es[k].from);
    if DateKey(DateOf(es[0])) == DateKey(DateOf(es[k])) {
      DateKeyInjective(DateOf(es[0]), DateOf(es[k]));
    }
  }
}
