/**
 The last step of `parse_ical_feed` in schedule.rb: `sort_by!` on the start
 timestamp. Ruby's sort is not stable, so all that is promised is a
 permutation in ascending start order; the insertion sort here is one such
 result, and the lemma at the end shows every such result agrees with it
 on the sequence of start times.
 */
module Sorting {
  import opened Events

  /** Put `e` into sorted `es` before the first event that starts later. */
  function Insert(e: Event, es: seq<Event>): (r: seq<Event>)
    requires SortedByFrom(es)
    ensures SortedByFrom(r)
    ensures multiset(r) == multiset(es) + multiset{e}
    ensures |r| == |es| + 1
    ensures r[0] == e || (|es| > 0 && r[0] == es[0])
    decreases |es|
  {
    if |es| == 0 then [e]
    else if SortKey(e.from) <= SortKey(es[0].from) then
      ConsSorted(e, es);
      [e] + es
    else
      var rest := Insert(e, es[1..]);
      assert es == [es[0]] + es[1..];
      ConsSorted(es[0], rest);
      [es[0]] + rest
  }

  /** An event no later than the head of a sorted sequence can go in front of it. */
  lemma ConsSorted(x: Event, s: seq<Event>)
    requires SortedByFrom(s)
    requires |s| > 0 ==> SortKey(x.from) <= SortKey(s[0].from)
    ensures SortedByFrom([x] + s)
  {
    var r := [x] + s;
    forall i, j | 0 <= i < j < |r| ensures SortKey(r[i].from) <= SortKey(r[j].from) {
      if i == 0 {
        assert r[j] == s[j - 1];
      } else {
        assert r[i] == s[i - 1] && r[j] == s[j - 1];
      }
    }
  }

  /** events.sort_by! { |event| event[:from] } */
  function SortByFrom(es: seq<Event>): (r: seq<Event>)
    ensures SortedByFrom(r)
    ensures multiset(r) == multiset(es)
    decreases |es|
  {
    if |es| == 0 then []
    else
      assert es == [es[0]] + es[1..];
      Insert(es[0], SortByFrom(es[1..]))
  }

  /** The start keys of a sequence of events, in order. */
  function StartKeys(es: seq<Event>): (ks: seq<int>)
    ensures |ks| == |es|
    ensures forall i :: 0 <= i < |es| ==> ks[i] == SortKey(es[i].from)
  {
    seq(|es|, i requires 0 <= i < |es| => SortKey(es[i].from))
  }

  /**
   Sorting is not stable, but all sorted permutations of the same events
   list the same start times in the same order: only events that start at
   the same instant can trade places.
   */
  lemma {:induction false} SortedPermutationsAgree(a: seq<Event>, b: seq<Event>)
    requires SortedByFrom(a) && SortedByFrom(b)
    requires multiset(a) == multiset(b)
    ensures StartKeys(a) == StartKeys(b)
    decreases |a|
  {
    if |a| == 0 {
      assert |multiset(b)| == 0;
    } else {
      assert a[0] in multiset(b);
      var j :| 0 <= j < |b| && b[j] == a[0];
      var rest := b[..j] + b[j + 1..];
      RemoveOne(a, b, j);
      DropSorted(b, j);
      SortedPermutationsAgree(a[1..], rest);
      HeadKeysAgree(a, b);
      Stitch(a, b, j);
    }
  }

  lemma RemoveOne(a: seq<Event>, b: seq<Event>, j: nat)
    requires |a| > 0 && j < |b| && b[j] == a[0]
    requires multiset(a) == multiset(b)
    ensures multiset(b[..j] + b[j + 1..]) == multiset(a[1..])
  {
    assert b == b[..j] + [b[j]] + b[j + 1..];
    assert multiset(b) == multiset(b[..j]) + multiset{a[0]} + multiset(b[j + 1..]);
    assert a == [a[0]] + a[1..];
    assert multiset(a) == multiset{a[0]} + multiset(a[1..]);
    assert multiset(b[..j] + b[j + 1..]) == multiset(b[..j]) + multiset(b[j + 1..]);
    assert multiset(a[1..]) == multiset(a) - multiset{a[0]};
    assert multiset(b[..j] + b[j + 1..]) == multiset(b) - multiset{a[0]};
  }

  lemma HeadKeysAgree(a: seq<Event>, b: seq<Event>)
    requires SortedByFrom(a) && SortedByFrom(b)
    requires multiset(a) == multiset(b) && |a| > 0
    ensures SortKey(a[0].from) == SortKey(b[0].from)
  {
    assert a[0] in multiset(b);
    assert b[0] in multiset(a);
  }

  /** Putting the head back where it was taken from leaves the start keys as they were. */
  lemma Stitch(a: seq<Event>, b: seq<Event>, j: nat)
    requires SortedByFrom(b) && |a| == |b| && j < |b| && b[j] == a[0]
    requires SortKey(a[0].from) == SortKey(b[0].from)
    requires StartKeys(a[1..]) == StartKeys(b[..j] + b[j + 1..])
    ensures StartKeys(a) == StartKeys(b)
  {
    var rest := b[..j] + b[j + 1..];
    forall i | 0 <= i < |a| ensures StartKeys(a)[i] == StartKeys(b)[i] {
      if i > 0 {
        assert StartKeys(a)[i] == StartKeys(a[1..])[i - 1];
        if i <= j {
          assert rest[i - 1] == b[i - 1];
        } else {
          assert rest[i - 1] == b[i];
        }
      }
    }
  }

  /** Taking one event out of a sorted sequence leaves it sorted. */
  lemma DropSorted(s: seq<Event>, j: nat)
    requires SortedByFrom(s) && j < |s|
    ensures SortedByFrom(s[..j] + s[j + 1..])
  {
    var r := s[..j] + s[j + 1..];
    forall x, y | 0 <= x < y < |r| ensures SortKey(r[x].from) <= SortKey(r[y].from) {
      var sx := if x < j then x else x + 1;
      var sy := if y < j then y else y + 1;
      assert r[x] == s[sx] && r[y] == s[sy];
    }
  }
}
