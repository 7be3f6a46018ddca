/**
 * The event routes (backend/src/routes/eventRoutes.js): `/create`,
 * `/enroll` and `/created`, over the event collection.
 *
 * The collection is a map from document id to document, together with the
 * natural order in which `find` returns documents. `emitted` records the
 * snapshots broadcast as "eventUpdated", in order. The image upload, the
 * confirmation e-mail and Mongoose's cast of the body's date string are
 * parameters; handlers run one at a time.
 */
module EventRoutes {
  import opened Wrappers
  import opened JsText
  import opened Http
  import opened EventSchema
  import opened AuthMiddleware
  import Sorting

  /** What the image upload did: no file in the request, an uploaded file's
      URL, or an upload that threw. */
  datatype Upload = NoFile | Uploaded(url: string) | UploadFailed

  /** The record after `attendees.push(email)` and `attendeeCount += 1`. */
  function Enrolled(e: Event, email: string): (r: Event)
    ensures r.attendees == e.attendees + [email]
    ensures r.attendeeCount == e.attendeeCount + 1
    ensures r.(attendees := e.attendees, attendeeCount := e.attendeeCount) == e
  {
    e.(attendees := e.attendees + [email], attendeeCount := e.attendeeCount + 1)
  }

  /** Adding an address that is not yet listed keeps the ledger invariant. */
  lemma {:induction false} EnrolledKeepsConsistent(e: Event, email: string)
    requires Consistent(e) && email !in e.attendees
    ensures Consistent(Enrolled(e, email))
  {
    var s := Enrolled(e, email).attendees;
    forall i, j | 0 <= i < j < |s| ensures s[i] != s[j] {
      if j == |s| - 1 {
        assert s[i] == e.attendees[i];
      }
    }
  }

  /** Ascending by date, the order of `sort({ date: 1 })`. */
  predicate DateLe(a: Event, b: Event) {
    a.date.time <= b.date.time
  }

  lemma DateLeIsTotalPreorder()
    ensures Sorting.TotalPreorder(DateLe)
  {
  }

  /** The documents among `docs` owned by `uid`, in their order. */
  function OwnedBy(docs: seq<Event>, uid: string): (r: seq<Event>)
    ensures forall e :: e in r <==> e in docs && e.userId == uid
    ensures forall e :: multiset(r)[e] == if e.userId == uid then multiset(docs)[e] else 0
  {
    if docs == [] then []
    else
      assert docs == [docs[0]] + docs[1..];
      (if docs[0].userId == uid then [docs[0]] else []) + OwnedBy(docs[1..], uid)
  }

  /** Sequences with the same multiset have the same elements. */
  lemma SameElements(r: seq<Event>, s: seq<Event>)
    requires multiset(r) == multiset(s)
    ensures forall e :: e in r <==> e in s
  {
    forall e ensures e in r <==> e in s {
      assert e in r <==> e in multiset(r);
      assert e in s <==> e in multiset(s);
    }
  }

  /** The documents of the collection listed in the order of `ids`. */
  function DocumentsOf(events: map<string, Event>, ids: seq<string>): (r: seq<Event>)
    requires forall k :: 0 <= k < |ids| ==> ids[k] in events
    ensures |r| == |ids| && forall k :: 0 <= k < |ids| ==> r[k] == events[ids[k]]
  {
    if ids == [] then [] else [events[ids[0]]] + DocumentsOf(events, ids[1..])
  }

  class EventStore {
    var events: map<string, Event>
    var order: seq<string>
    var emitted: seq<Event>

    /** Every document appears once in the natural order and is stored under its own id. */
    ghost predicate Valid()
      reads this
    {
      && NoDuplicates(order)
      && (forall id :: id in events <==> id in order)
      && (forall id | id in events :: events[id].id == id)
    }

    /** Every event satisfies the ledger invariant. */
    ghost predicate AllConsistent()
      reads this
    {
      forall id | id in events :: Consistent(events[id])
    }

    constructor ()
      ensures Valid() && AllConsistent()
      ensures events == map[] && order == [] && emitted == []
    {
      events := map[];
      order := [];
      emitted := [];
    }

    /** `Event.find()`: all documents in natural order. */
    function Documents(): (r: seq<Event>)
      reads this
      requires Valid()
      ensures forall e :: e in r <==> exists id :: id in events && events[id] == e
    {
      var r := DocumentsOf(events, order);
      assert forall id :: id in events ==> events[id] in r by {
        forall id | id in events ensures events[id] in r {
          var k :| 0 <= k < |order| && order[k] == id;
          assert r[k] == events[id];
        }
      }
      r
    }

    /** `GET /created`: `Event.find({ userId }).sort({ date: 1 })`, the
        caller's events and no others, each as often as stored, in
        ascending date order. */
    function Created(caller: Claims): (r: seq<Event>)
      reads this
      requires Valid()
      ensures forall e :: e in r <==> exists id :: id in events && events[id] == e && e.userId == caller.id
      ensures multiset(r) == multiset(OwnedBy(Documents(), caller.id))
      ensures forall i, j :: 0 <= i < j < |r| ==> r[i].date.time <= r[j].date.time
    {
      var docs := Documents();
      var owned := OwnedBy(docs, caller.id);
      var r := Sorting.SortBy(owned, DateLe);
      DateLeIsTotalPreorder();
      Sorting.SortBySorted(owned, DateLe);
      SameElements(r, owned);
      r
    }

    /** `POST /enroll` for a caller the middleware has admitted. */
    method Enroll(eventId: Option<string>, userEmail: Option<string>, userName: Option<string>,
                  mailSent: bool) returns (res: Response)
      requires Valid()
      modifies this
      ensures Valid() && order == old(order)
      ensures !(Truthy(eventId) && Truthy(userEmail) && Truthy(userName)) ==>
                && res == Response(400, "Missing required fields.")
                && events == old(events) && emitted == old(emitted)
      ensures Truthy(eventId) && Truthy(userEmail) && Truthy(userName) && eventId.value !in old(events) ==>
                && res == Response(404, "Event not found")
                && events == old(events) && emitted == old(emitted)
      ensures Truthy(eventId) && Truthy(userEmail) && Truthy(userName) && eventId.value in old(events)
              && userEmail.value in old(events)[eventId.value].attendees ==>
                && res == Response(400, "You are already enrolled in this event.")
                && events == old(events) && emitted == old(emitted)
      ensures Truthy(eventId) && Truthy(userEmail) && Truthy(userName) && eventId.value in old(events)
              && userEmail.value !in old(events)[eventId.value].attendees ==>
                && events == old(events)[eventId.value := Enrolled(old(events)[eventId.value], userEmail.value)]
                && emitted == old(emitted) + [events[eventId.value]]
                && res == if mailSent then Response(200, "Enrollment successful. Confirmation email sent!")
                          else Response(500, "Server error. Try again later.")
      ensures old(AllConsistent()) ==> AllConsistent()
    {
      if !Truthy(eventId) || !Truthy(userEmail) || !Truthy(userName) {
        return Response(400, "Missing required fields.");
      }
      var id, email := eventId.value, userEmail.value;
      if id !in events {
        return Response(404, "Event not found");
      }
      var event := events[id];
      if email in event.attendees {
        return Response(400, "You are already enrolled in this event.");
      }
      ghost var wasConsistent := AllConsistent();
      event := event.(attendees := event.attendees + [email]);
      event := event.(attendeeCount := event.attendeeCount + 1);
      events := events[id := event];
      if wasConsistent {
        EnrolledKeepsConsistent(old(events)[id], email);
      }
      emitted := emitted + [event];
      if mailSent {
        res := Response(200, "Enrollment successful. Confirmation email sent!");
      } else {
        res := Response(500, "Server error. Try again later.");
      }
    }

    /** `POST /create` for a caller the middleware has admitted. `newId` is
        the id the new document is given; saving fails on a duplicate id,
        on a date the schema cannot cast, or on a missing owner id. */
    method Create(caller: Claims, name: Option<string>, description: Option<string>,
                  category: Option<string>, date: Option<string>, upload: Upload,
                  newId: string, castDate: string -> Option<DateStamp>) returns (res: Response)
      requires Valid()
      modifies this
      ensures Valid() && emitted == old(emitted)
      ensures !(Truthy(name) && Truthy(description) && Truthy(category) && Truthy(date)) ==>
                res == Response(400, "All fields are required") && events == old(events) && order == old(order)
      ensures Truthy(name) && Truthy(description) && Truthy(category) && Truthy(date) && upload.UploadFailed? ==>
                res == Response(500, "Error uploading image") && events == old(events) && order == old(order)
      ensures res.status == 201 <==>
                && Truthy(name) && Truthy(description) && Truthy(category) && Truthy(date)
                && !upload.UploadFailed? && castDate(date.value).Some? && caller.id != "" && newId !in old(events)
      ensures res.status == 201 ==>
                && res.message == "Event created successfully"
                && order == old(order) + [newId]
                && events == old(events)[newId := NewEvent(newId, caller.id, name.value, description.value,
                                                           category.value, castDate(date.value).value,
                                                           Some(if upload.Uploaded? then upload.url else ""))]
      ensures res.status != 201 ==> events == old(events) && order == old(order)
      ensures Truthy(name) && Truthy(description) && Truthy(category) && Truthy(date) && !upload.UploadFailed?
              && res.status != 201 ==>
                res == Response(500, "Server error")
      ensures old(AllConsistent()) ==> AllConsistent()
    {
      if !Truthy(name) || !Truthy(description) || !Truthy(category) || !Truthy(date) {
        return Response(400, "All fields are required");
      }
      var imageUrl := "";
      match upload {
        case UploadFailed => return Response(500, "Error uploading image");
        case Uploaded(url) => imageUrl := url;
        case NoFile =>
      }
      var when := castDate(date.value);
      if when.None? || caller.id == "" || newId in events {
        return Response(500, "Server error");
      }
      var event := NewEvent(newId, caller.id, name.value, description.value, category.value, when.value, Some(imageUrl));
      events := events[newId := event];
      order := order + [newId];
      res := Response(201, "Event created successfully");
    }
  }

  /** Enrolling the same address twice in a row: the second call is refused
      as "already enrolled" and changes nothing, so the attendee count grows
      by exactly one over both calls. */
  method EnrollTwice(store: EventStore, eventId: string, email: string, userName: string, mailSent: bool)
    returns (first: Response, second: Response)
    requires store.Valid() && eventId in store.events && email !in store.events[eventId].attendees
    requires email != "" && userName != "" && eventId != ""
    modifies store
    ensures first.status == (if mailSent then 200 else 500)
    ensures second == Response(400, "You are already enrolled in this event.")
    ensures eventId in store.events
    ensures store.events[eventId].attendeeCount == old(store.events[eventId].attendeeCount) + 1
    ensures store.events[eventId].attendees == old(store.events[eventId].attendees) + [email]
  {
    first := store.Enroll(Some(eventId), Some(email), Some(userName), mailSent);
    second := store.Enroll(Some(eventId), Some(email), Some(userName), mailSent);
  }
}
