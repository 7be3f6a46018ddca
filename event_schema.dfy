/**
 * The event document (backend/src/models/Event.js): its fields, the
 * schema's required fields and defaults, and the ledger invariant the
 * enrollment route is meant to keep.
 */
module EventSchema {
  import opened Wrappers

  /** A stored Date as the application sees it: the ISO text a client
      receives in `event.date`, and the milliseconds since the epoch that
      `new Date(event.date).getTime()` yields. */
  datatype DateStamp = DateStamp(iso: string, time: int)

  datatype Event = Event(
    id: string,
    userId: string,
    name: string,
    description: string,
    category: string,
    date: DateStamp,
    attendees: seq<string>,
    image: string,
    attendeeCount: int)

  /** The schema's required fields hold a value: Mongoose's `required`
      refuses a missing or empty string. `date` is a DateStamp, so present. */
  predicate HasRequiredFields(e: Event) {
    e.userId != "" && e.name != "" && e.description != "" && e.category != ""
  }

  predicate NoDuplicates(s: seq<string>) {
    forall i, j | 0 <= i < j < |s| :: s[i] != s[j]
  }

  /** The enrollment ledger's invariant: the counter is the number of
      attendees, and nobody is listed twice. */
  predicate Consistent(e: Event) {
    e.attendeeCount == |e.attendees| && NoDuplicates(e.attendees)
  }

  /** `new Event({ ... })`: the given fields, and the schema's defaults for
      the rest (`attendees` = [], `attendeeCount` = 0, `image` = ""). */
  function NewEvent(id: string, userId: string, name: string, description: string,
                    category: string, date: DateStamp, image: Option<string>): (e: Event)
    ensures e.attendees == [] && e.attendeeCount == 0
    ensures e.image == if image.Some? then image.value else ""
    ensures Consistent(e)
    ensures HasRequiredFields(e) <==> userId != "" && name != "" && description != "" && category != ""
  {
    Event(id, userId, name, description, category, date, [], if image.Some? then image.value else "", 0)
  }
}
