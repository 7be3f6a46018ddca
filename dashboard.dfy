/**
 * The public event page (frontend/src/pages/Dashboard.jsx): expiry, the
 * enroll buttons, the grid it renders, and the "eventUpdated" socket
 * listener that swaps an updated event into the list.
 */
module Dashboard {
  import opened Wrappers
  import opened EventSchema
  import opened EventListing

  /** `isEventExpired(event.date)`: the event's time is before now. */
  predicate IsEventExpired(e: Event, now: int) {
    e.date.time < now
  }

  datatype Button = Button(disabled: bool, caption: string)

  /** The enroll button on a grid card. */
  function EnrollButton(e: Event, now: int, loggedIn: bool): (b: Button)
    ensures b.disabled <==> e.date.time < now
    ensures b.caption == "Ended" <==> b.disabled
    ensures !b.disabled ==> b.caption == if loggedIn then "Enroll Now" else "Log in to Enroll"
  {
    var expired := IsEventExpired(e, now);
    Button(expired, if expired then "Ended" else if loggedIn then "Enroll Now" else "Log in to Enroll")
  }

  /** The enroll button of the detail modal: absent once the event has
      passed, disabled while an enrollment is in flight. */
  function ModalEnrollButton(e: Event, now: int, enrolling: bool, loggedIn: bool): (b: Option<Button>)
    ensures b.None? <==> e.date.time < now
    ensures b.Some? ==> (b.value.disabled <==> enrolling)
    ensures b.Some? ==> b.value.caption == if enrolling then "Enrolling..."
                                         else if loggedIn then "Enroll Now" else "Log in to Enroll"
  {
    if IsEventExpired(e, now) then None
    else Some(Button(enrolling, if enrolling then "Enrolling..." else if loggedIn then "Enroll Now" else "Log in to Enroll"))
  }

  /** The grid of the page: `sortedEvents`. */
  function Grid(events: seq<Event>, category: string, date: string, now: int): seq<Event> {
    Listing(events, category, date, now)
  }

  /** With no filter selected, the grid shows every event once per
      occurrence, upcoming ones first. */
  lemma UnfilteredGridShowsAll(events: seq<Event>, now: int)
    ensures multiset(Grid(events, "", "", now)) == multiset(events)
  {
    NoFilterKeepsAll(events);
    SortEventsSpec(events, now);
  }

  /** `prevEvents.map(event => event._id === updated._id ? updated : event)`. */
  function ReplaceById(events: seq<Event>, updated: Event): (r: seq<Event>)
    ensures |r| == |events|
    ensures forall i :: 0 <= i < |events| ==> r[i].id == events[i].id
    ensures forall i :: 0 <= i < |events| && events[i].id == updated.id ==> r[i] == updated
    ensures forall i :: 0 <= i < |events| && events[i].id != updated.id ==> r[i] == events[i]
  {
    if events == [] then []
    else [if events[0].id == updated.id then updated else events[0]] + ReplaceById(events[1..], updated)
  }

  /** An update whose id matches no listed event leaves the list as it was. */
  lemma UnknownUpdateKeepsList(events: seq<Event>, updated: Event)
    requires forall i :: 0 <= i < |events| ==> events[i].id != updated.id
    ensures ReplaceById(events, updated) == events
  {
  }

  /** Receiving the same update twice has the effect of receiving it once. */
  lemma ReplaceByIdIdempotent(events: seq<Event>, updated: Event)
    ensures ReplaceById(ReplaceById(events, updated), updated) == ReplaceById(events, updated)
  {
  }

  /** The page's `events` state as the socket listener updates it. */
  class DashboardView {
    var events: seq<Event>

    constructor ()
      ensures events == []
    {
      events := [];
    }

    /** The "eventUpdated" listener. */
    method OnEventUpdated(updated: Event)
      modifies this
      ensures events == ReplaceById(old(events), updated)
    {
      events := ReplaceById(events, updated);
    }
  }
}
