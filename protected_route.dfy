/**
 * The route guard (frontend/src/pages/ProtectedRoute.jsx): who sees a
 * protected page and who is sent back to the landing page.
 */
module ProtectedRoute {
  import opened Wrappers
  import opened JsText

  /** What the guard renders. */
  datatype View = RedirectHome | Children

  const CreateEventPath: string := "/create-event"

  /** The guard, given the stored `token`, the session's `guest` flag (both
      `null` when absent) and the current path. */
  function Guard(token: Option<string>, guest: Option<string>, path: string): (v: View)
    ensures Truthy(token) ==> v == Children
    ensures !Truthy(token) && Truthy(guest) ==> (v == RedirectHome <==> path == CreateEventPath)
    ensures !Truthy(token) && !Truthy(guest) ==> v == RedirectHome
  {
    if !Truthy(token) && (!Truthy(guest) || path == CreateEventPath) then RedirectHome else Children
  }
}
