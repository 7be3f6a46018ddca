/**
 * The owner's event page (frontend/src/pages/MyEvents.jsx): without a
 * stored user it fetches nothing and shows a log-in prompt; otherwise it
 * shows the fetched events through the same filter and comparator as the
 * public page.
 */
module MyEvents {
  import opened Wrappers
  import opened EventSchema
  import opened EventListing
  import AuthMiddleware

  /** The `user` entry of local storage, once parsed. */
  datatype StoredUser = StoredUser(name: string, email: string)

  datatype Page = LogInPrompt | EventGrid(events: seq<Event>)

  /** The effect hook: without a stored user it requests nothing; with one it
      requests `/created` with the header `Bearer ${token}`, from which the
      middleware verifies exactly the stored token text. An absent token is
      the text "null", as the template literal renders it. */
  function CreatedRequest(user: Option<StoredUser>, token: string): (header: Option<string>)
    ensures header.Some? <==> user.Some?
    ensures header.Some? ==> AuthMiddleware.TokenText(header.value) == token
  {
    if user.None? then None
    else
      AuthMiddleware.BearerHeaderYieldsToken(token);
      Some(AuthMiddleware.BearerPrefix + token)
  }

  /** What the page renders: the prompt exactly when no user is stored, and
      otherwise a grid of events drawn from the fetched ones. */
  function Render(user: Option<StoredUser>, events: seq<Event>, category: string, date: string, now: int): (p: Page)
    ensures p == LogInPrompt <==> user.None?
    ensures p.EventGrid? ==> multiset(p.events) <= multiset(events)
  {
    if user.None? then LogInPrompt
    else
      var shown := Listing(events, category, date, now);
      ListingSpec(events, category, date, now);
      EventGrid(shown)
  }

  /** Without a stored user nothing is fetched and the prompt is shown; with
      one, the grid lists exactly the matching events, upcoming first, each
      group in time order. */
  lemma RenderSpec(user: Option<StoredUser>, token: string, events: seq<Event>, category: string, date: string, now: int)
    ensures user.None? ==> CreatedRequest(user, token).None? && Render(user, events, category, date, now) == LogInPrompt
    ensures user.Some? ==>
              var p := Render(user, events, category, date, now);
              && p.EventGrid?
              && (forall e :: multiset(p.events)[e] == if MatchesFilter(e, category, date) then multiset(events)[e] else 0)
              && (forall i, j :: 0 <= i < j < |p.events| && p.events[j].date.time >= now ==> p.events[i].date.time >= now)
              && (forall i, j :: 0 <= i < j < |p.events| && (p.events[i].date.time < now <==> p.events[j].date.time < now) ==>
                    p.events[i].date.time <= p.events[j].date.time)
  {
    ListingSpec(events, category, date, now);
  }
}
