/**
 * The list logic both event pages share (frontend/src/pages/Dashboard.jsx
 * and frontend/src/pages/MyEvents.jsx hold the same code): the
 * category/date filter and the "upcoming first, then by time" comparator.
 * Times are milliseconds; `now` is one instant for the whole sort.
 */
module EventListing {
  import opened JsText
  import opened EventSchema
  import Sorting

  /** A selected category ("" for all) must equal the event's category up to
      case; a selected date ("" for any) must begin the event's date text. */
  predicate MatchesFilter(e: Event, category: string, date: string) {
    && (category != "" ==> ToLower(e.category) == ToLower(category))
    && (date != "" ==> StartsWith(e.date.iso, date))
  }

  /** `events.filter(...)`. */
  function FilterEvents(events: seq<Event>, category: string, date: string): (r: seq<Event>)
    ensures |r| <= |events|
    ensures forall i :: 0 <= i < |r| ==> MatchesFilter(r[i], category, date)
  {
    if events == [] then []
    else (if MatchesFilter(events[0], category, date) then [events[0]] else [])
         + FilterEvents(events[1..], category, date)
  }

  /** `r` is `s` with some elements left out, the rest in their order. */
  predicate IsSubsequence<T(==)>(r: seq<T>, s: seq<T>)
    decreases |s|
  {
    if r == [] then true
    else if s == [] then false
    else (r[0] == s[0] && IsSubsequence(r[1..], s[1..])) || IsSubsequence(r, s[1..])
  }

  /** The filter keeps exactly the matching events, each as often as it
      occurs, in their original order. */
  lemma FilterEventsSpec(events: seq<Event>, category: string, date: string)
    ensures var r := FilterEvents(events, category, date);
            && (forall e :: e in r ==> MatchesFilter(e, category, date))
            && (forall e :: multiset(r)[e] == if MatchesFilter(e, category, date) then multiset(events)[e] else 0)
            && IsSubsequence(r, events)
  {
    FilterCounts(events, category, date);
    FilterIsSubsequence(events, category, date);
    var r := FilterEvents(events, category, date);
    forall e | e in r ensures MatchesFilter(e, category, date) {
      assert e in multiset(r);
    }
  }

  lemma {:induction false} FilterCounts(events: seq<Event>, category: string, date: string)
    ensures forall e :: multiset(FilterEvents(events, category, date))[e]
                        == if MatchesFilter(e, category, date) then multiset(events)[e] else 0
  {
    if events != [] {
      FilterCounts(events[1..], category, date);
      assert events == [events[0]] + events[1..];
    }
  }

  lemma {:induction false} FilterIsSubsequence(events: seq<Event>, category: string, date: string)
    ensures IsSubsequence(FilterEvents(events, category, date), events)
  {
    if events != [] {
      var rest := FilterEvents(events[1..], category, date);
      FilterIsSubsequence(events[1..], category, date);
      if MatchesFilter(events[0], category, date) {
        assert FilterEvents(events, category, date) == [events[0]] + rest;
        assert ([events[0]] + rest)[1..] == rest;
      } else {
        assert FilterEvents(events, category, date) == rest;
        SubsequenceOfTail(rest, events);
      }
    }
  }

  lemma SubsequenceOfTail<T>(r: seq<T>, s: seq<T>)
    requires s != [] && IsSubsequence(r, s[1..])
    ensures IsSubsequence(r, s)
  {
  }

  /** With no category and no date selected the filter keeps every event. */
  lemma {:induction false} NoFilterKeepsAll(events: seq<Event>)
    ensures FilterEvents(events, "", "") == events
  {
    if events != [] {
      NoFilterKeepsAll(events[1..]);
      assert [events[0]] + events[1..] == events;
    }
  }

  /** The comparator both pages pass to `sort`: an event that has passed goes
      after one that has not; otherwise the earlier one goes first. */
  function Compare(a: Event, b: Event, now: int): (r: int)
    ensures a.date.time >= now && b.date.time < now ==> r < 0
    ensures a.date.time < now && b.date.time >= now ==> r > 0
    ensures (a.date.time < now <==> b.date.time < now) ==> (r <= 0 <==> a.date.time <= b.date.time)
  {
    var ta, tb := a.date.time, b.date.time;
    if ta < now && tb >= now then 1
    else if ta >= now && tb < now then -1
    else ta - tb
  }

  /** `a` may stand before `b` in the sorted list. */
  function MayPrecede(now: int): (Event, Event) -> bool {
    (a: Event, b: Event) => Compare(a, b, now) <= 0
  }

  /** The comparator is consistent, as `sort` requires: swapping the
      arguments flips the sign, and "may precede" is a total preorder. */
  lemma ComparatorIsConsistent(now: int)
    ensures forall a, b :: Compare(a, b, now) == -Compare(b, a, now)
    ensures Sorting.TotalPreorder(MayPrecede(now))
  {
  }

  /** `[...filteredEvents].sort(comparator)`. */
  function SortEvents(events: seq<Event>, now: int): (r: seq<Event>)
    ensures multiset(r) == multiset(events)
  {
    Sorting.SortBy(events, MayPrecede(now))
  }

  /** The sorted list is a permutation of its input in which every event that
      has not yet passed (time >= now) stands before every event that has,
      and each of the two groups is in ascending time order. */
  lemma SortEventsSpec(events: seq<Event>, now: int)
    ensures var r := SortEvents(events, now);
            && multiset(r) == multiset(events)
            && (forall i, j :: 0 <= i < j < |r| && r[j].date.time >= now ==> r[i].date.time >= now)
            && (forall i, j :: 0 <= i < j < |r| && (r[i].date.time < now <==> r[j].date.time < now) ==>
                  r[i].date.time <= r[j].date.time)
  {
    ComparatorIsConsistent(now);
    Sorting.SortBySorted(events, MayPrecede(now));
    var r := SortEvents(events, now);
    assert forall i, j :: 0 <= i < j < |r| ==> Compare(r[i], r[j], now) <= 0 by {
      forall i, j | 0 <= i < j < |r| ensures Compare(r[i], r[j], now) <= 0 {
        assert MayPrecede(now)(r[i], r[j]);
      }
    }
  }

  /** What a page shows for the current filters: the filtered events, sorted. */
  function Listing(events: seq<Event>, category: string, date: string, now: int): seq<Event> {
    SortEvents(FilterEvents(events, category, date), now)
  }

  /** An event is listed as often as it occurs and matches the filters; the
      listing shows upcoming events first, each group in time order. */
  lemma ListingSpec(events: seq<Event>, category: string, date: string, now: int)
    ensures var r := Listing(events, category, date, now);
            && (forall e :: multiset(r)[e] == if MatchesFilter(e, category, date) then multiset(events)[e] else 0)
            && (forall e :: e in r ==> MatchesFilter(e, category, date))
            && (forall i, j :: 0 <= i < j < |r| && r[j].date.time >= now ==> r[i].date.time >= now)
            && (forall i, j :: 0 <= i < j < |r| && (r[i].date.time < now <==> r[j].date.time < now) ==>
                  r[i].date.time <= r[j].date.time)
  {
    var f := FilterEvents(events, category, date);
    FilterEventsSpec(events, category, date);
    SortEventsSpec(f, now);
    var r := Listing(events, category, date, now);
    forall e | e in r ensures MatchesFilter(e, category, date) {
      assert e in multiset(r);
    }
  }
}
