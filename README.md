# EventHub: a verified model of the enrollment, authentication and form logic

EventHub is an event-listing web application. An Express back end stores
events and users in MongoDB. A React front end lists events, lets a signed-in
user enroll, and lets an owner create events. This project models in Dafny
the parts of the application that hold logic, and proves properties of them:

- **Bearer-token gate** (`AuthMiddleware`). It refuses a request without an
  `Authorization` header. Otherwise it strips the first `"Bearer "` from the
  header, verifies the rest, and either answers 401 or sets `req.user` and
  calls `next` once.
- **One-time-code table for password reset** (`AuthRoutes`). `codeStorage`
  maps an e-mail to its code. It is written by `/send-code` and consumed by
  `/verify-code`. `/reset-password` rewrites a user's password hash.
- **Event collection and its routes** (`EventSchema`, `EventRoutes`).
  `/create` has a required-field check and schema defaults. `/enroll` checks
  its input, then appends the e-mail and bumps the counter. `/created` lists
  the caller's events sorted by date.
- **User documents** (`UserSchema`): required fields, the gender enum, and
  the unique e-mail index.
- **Event lists on the two pages** (`EventListing`, `Dashboard`, `MyEvents`).
  The pages filter by category and date and sort with an "upcoming first,
  then by time" comparator. The dashboard also has an expiry test, the enroll
  buttons, and the socket listener that swaps in an updated event.
- **Forms**: the sign-up validator (`SignUp`), the create-event form state
  (`CreateEvent`), the forgot-password dialog as a state machine
  (`ForgotPassword`), and the route guard (`ProtectedRoute`).

State that the source changes in place is modelled as a Dafny class:
- the event collection (`EventRoutes.EventStore`);
- `codeStorage` and the users (`AuthRoutes.AuthRouter`);
- the request/response pair the middleware touches (`AuthMiddleware.Exchange`);
- the dashboard's event list (`Dashboard.DashboardView`);
- the create-event form (`CreateEvent.CreateEventForm`).

Each method's `ensures` ties its new state to a pure function, and the
properties are proved about those functions. The forgot-password dialog is
modelled as a value-level state machine with traces of user actions.

Supporting modules:
- `Wrappers`: `Option`, `Result`.
- `Http`: a response as a status and a message.
- `JsText`: the JavaScript string operations used. This covers `trim` with
  the `\s` set, ASCII `toLowerCase`, `startsWith`, first-occurrence
  `replace`, and `split` on one character.
- `Sorting`: an insertion sort over a total preorder, proved to give a
  sorted permutation.

Dates are `DateStamp(iso, time)`. `iso` is the ISO text the client receives
and filters by prefix. `time` is the epoch milliseconds the comparisons use.
JavaScript truthiness of a body field is `JsText.Truthy`: the field is
present and not `""`.

Some of what the code does differs from what a reader of the route names
and the user interface might expect; the model follows the code:
- `/reset-password` does not require a prior successful `/verify-code`.
  `AuthRouter.HandleResetPassword` proves that it neither reads nor writes
  `codeStorage`.
- Codes have no expiry. A code stays valid until it is verified or replaced.
- When code delivery fails, no code is stored, because `sendCode` throws
  before `codeStorage.set`: storing and mailing are not independent steps.
- After a successful enrollment has been saved, the confirmation e-mail is
  awaited. If the e-mail fails, the response is 500, although the enrollment
  persists. It is not a detached side effect.
- Failures surface as HTTP statuses and messages (400/404/401/500).
  There is no error taxonomy.

## Model

| member | source | states |
|---|---|---|
| JsText.Trim | frontend/src/pages/SignUp.jsx:20 | `name.trim()` is empty iff every character is white space; otherwise the result starts and ends with a non-space |
| JsText.ReplaceFirst | backend/src/middleware/authMiddleware.js:14 | without an occurrence the string is unchanged; otherwise exactly the first occurrence is replaced |
| JsText.Split | frontend/src/pages/CreateEvent.jsx:55 | `split` on one character yields at least one piece, and no piece contains the separator |
| JsText.SplitFirstPiece | frontend/src/pages/CreateEvent.jsx:55 | splitting `a + sep + b`, with no `sep` in `a`, yields `a` followed by the pieces of `b` |
| JsText.SplitNoSeparator | frontend/src/pages/CreateEvent.jsx:55 | a string without the separator splits into itself alone |
| Sorting.SortBy | frontend/src/pages/Dashboard.jsx:113 | the sort the pages' `sort(comparator)` and the store's `sort({ date: 1 })` stand for; its result holds the same elements as its input |
| Sorting.SortBySorted | backend/src/routes/eventRoutes.js:130 | for any total preorder, the sort returns a permutation of its input that is ordered pairwise |
| EventSchema.NewEvent | backend/src/models/Event.js:3-15 | a new document has `attendees = []`, `attendeeCount = 0`, image `""` unless given, satisfies the ledger invariant, and has its required fields iff the given ones are non-empty |
| UserSchema.FindIndexFrom | backend/src/routes/authRoutes.js:20 | `findOne({ email })` finds the first document with that e-mail, or reports that none has it |
| UserSchema.EmailIdentifiesUser | backend/src/models/Users.js:7 | under the unique index, any document carrying the address is the one the lookup finds |
| UserSchema.Insert | backend/src/models/Users.js:3-10 | a save succeeds iff every required field is set, gender is in the enum and the e-mail is not yet taken; it appends the document and keeps e-mails unique |
| UserSchema.SetPasswordKeepsUnique | backend/src/models/Users.js:7 | rewriting a password keeps e-mails unique |
| AuthMiddleware.TokenText | backend/src/middleware/authMiddleware.js:14 | the verified text is the header without its first `"Bearer "`; a header without it is verified unchanged |
| AuthMiddleware.BearerHeaderYieldsToken | backend/src/middleware/authMiddleware.js:14 | `"Bearer " + t` yields `t` |
| AuthMiddleware.Decide | backend/src/middleware/authMiddleware.js:7-20 | a missing or empty header gives 401 "Access denied. No token provided."; a failed verification gives 401 "Invalid or expired token."; otherwise the request passes with the decoded claims |
| AuthMiddleware.Authenticate | backend/src/middleware/authMiddleware.js:5-21 | on rejection only the 401 response is written; on success `req.user` is the claims, `next` is called once more and no response is written |
| AuthMiddleware.AuthenticateFresh | backend/src/middleware/authMiddleware.js:5-21 | every request ends in exactly one of a 401 response and one call to `next` |
| AuthRoutes.SendCode | backend/src/routes/authRoutes.js:17-31 | an unknown address gets 400; 200 comes exactly when the user exists and the code was mailed, and then the mailed code is stored for the address; every other outcome leaves the table unchanged |
| AuthRoutes.VerifyCode | backend/src/routes/authRoutes.js:34-43 | 200 exactly when the stored entry strictly equals the submitted code; a match removes that address's entry and keeps every other, a mismatch changes nothing |
| AuthRoutes.ResetPassword | backend/src/routes/authRoutes.js:46-61 | the number of users is kept; an unknown address gets 400 "User not found"; a known user without a new password gets 500 "Server error"; 200 exactly for a known user with a new password, and then no other user changes; any other outcome changes nothing |
| AuthRoutes.CodeMatches | backend/src/routes/authRoutes.js:37 | the strict `codeStorage.get(email) === code`: an absent entry or address is undefined, which equals only an absent body code |
| AuthRoutes.UnknownUserStoresNothing | backend/src/routes/authRoutes.js:19-22 | send-code for an address no user has is answered 400 "User not found" and the table is unchanged |
| AuthRoutes.FailedDeliveryStoresNothing | backend/src/routes/authRoutes.js:19-30 | when delivery throws nothing is stored; a known user is answered 500 "Server error", an unknown address 400 "User not found" |
| AuthRoutes.SendCodeOverwrites | backend/src/routes/authRoutes.js:24-27 | a successful send-code stores the mailed code for that address, overwriting the old one, and leaves other addresses alone |
| AuthRoutes.CodeIsSingleUse | backend/src/routes/authRoutes.js:37-39 | a matching code is answered 200 and deleted, so the same code is then refused |
| AuthRoutes.MismatchAllowsRetry | backend/src/routes/authRoutes.js:37-42 | a wrong code is answered 400 "Invalid code" with the table unchanged, and the right code still verifies |
| AuthRoutes.ReissueInvalidatesEarlierCode | backend/src/routes/authRoutes.js:24-39 | after two send-codes for one address, the first code is refused and the second verifies |
| AuthRoutes.AbsentCodeMatchesAbsentEntry | backend/src/routes/authRoutes.js:37 | with no stored entry and no `code` in the body, the strict comparison holds and the request is answered 200 |
| AuthRoutes.ResetReplacesOnePassword | backend/src/routes/authRoutes.js:46-61 | for a known user only that user's password becomes the hash of the new one, and e-mails stay unique; an unknown address gets 400 and nothing changes |
| AuthRoutes.AuthRouter.constructor | backend/src/routes/authRoutes.js:8 | the code table starts empty |
| AuthRoutes.AuthRouter.HandleSendCode | backend/src/routes/authRoutes.js:17-31 | the table and response after `/send-code` are those of `SendCode` |
| AuthRoutes.AuthRouter.HandleVerifyCode | backend/src/routes/authRoutes.js:34-43 | the table and response after `/verify-code` are those of `VerifyCode` |
| AuthRoutes.AuthRouter.HandleResetPassword | backend/src/routes/authRoutes.js:46-61 | the users and response are those of `ResetPassword`; `codeStorage` is left unchanged |
| EventRoutes.Enrolled | backend/src/routes/eventRoutes.js:103-104 | enrolling appends the address and adds one to the counter, and no other field changes |
| EventRoutes.EnrolledKeepsConsistent | backend/src/routes/eventRoutes.js:99-105 | adding an address not yet listed keeps the counter equal to the number of attendees, with no duplicates |
| EventRoutes.DateLeIsTotalPreorder | backend/src/routes/eventRoutes.js:130 | ascending date order is a total preorder |
| EventRoutes.OwnedBy | backend/src/routes/eventRoutes.js:130 | the owner filter keeps exactly the caller's documents, each as often as stored |
| EventRoutes.DocumentsOf | backend/src/routes/eventRoutes.js:17 | the collection listed in its natural order |
| EventRoutes.EventStore.Documents | backend/src/routes/eventRoutes.js:15-22 | `Event.find()` returns every stored document and nothing else |
| EventRoutes.EventStore.Created | backend/src/routes/eventRoutes.js:127-136 | `/created` returns exactly the caller's events, each as often as stored, in ascending date order |
| EventRoutes.EventStore.Enroll | backend/src/routes/eventRoutes.js:83-123 | a missing field gives 400, an unknown id 404 and an address already listed 400, and none of these changes anything. Otherwise the one event gets the address and the counter is bumped, the saved snapshot is broadcast, and the response is 200, or 500 when the mail fails. The ledger invariant is kept |
| EventRoutes.EventStore.Create | backend/src/routes/eventRoutes.js:25-80 | a missing field gives 400 and a failed upload 500, saving nothing. Status 201 comes exactly when the fields are present, the upload did not fail and the document saves. The new document takes its owner from the token, with image `""` when no file is sent. A failed save of a complete request is answered 500 "Server error". Every other outcome changes nothing |
| EventRoutes.EnrollTwice | backend/src/routes/eventRoutes.js:99-105 | enrolling twice in a row gives success then 400 "already enrolled", a net count change of +1 |
| EventListing.MatchesFilter | frontend/src/pages/Dashboard.jsx:100-104 | an empty selection matches everything; a category matches up to ASCII case, a date as a prefix of the ISO text |
| EventListing.FilterEvents | frontend/src/pages/Dashboard.jsx:99-105 | the result is no longer than the input and every kept event matches both selections |
| EventListing.FilterEventsSpec | frontend/src/pages/Dashboard.jsx:99-105 | the filter keeps exactly the events matching the category up to case and the date prefix, each as often as it occurs, as an order-preserving subsequence |
| EventListing.FilterCounts | frontend/src/pages/Dashboard.jsx:99-105 | each matching event is kept as often as it occurs, and no other event is kept |
| EventListing.FilterIsSubsequence | frontend/src/pages/Dashboard.jsx:99-105 | the kept events are a subsequence of the input, in its order |
| EventListing.NoFilterKeepsAll | frontend/src/pages/MyEvents.jsx:56-62 | with no category and no date selected the filter is the identity |
| EventListing.Compare | frontend/src/pages/Dashboard.jsx:113-122 | an upcoming event compares below a past one and a past one above an upcoming one; within one group it compares ≤ 0 iff it is not later |
| EventListing.SortEvents | frontend/src/pages/Dashboard.jsx:113-122 | the sorted copy is a permutation of the filtered events |
| EventListing.ComparatorIsConsistent | frontend/src/pages/Dashboard.jsx:113-122 | the comparator is antisymmetric and "compares ≤ 0" is a total preorder |
| EventListing.SortEventsSpec | frontend/src/pages/MyEvents.jsx:65-74 | the sorted copy is a permutation with every upcoming event before every past one, each group ascending by time |
| EventListing.Listing | frontend/src/pages/Dashboard.jsx:99-122 | `sortedEvents`: the filtered events sorted by the comparator; its properties are those of `ListingSpec` |
| EventListing.ListingSpec | frontend/src/pages/Dashboard.jsx:99-122 | the list shows each matching event as often as it occurs and no other, upcoming first, each group ascending by time |
| Dashboard.IsEventExpired | frontend/src/pages/Dashboard.jsx:107-111 | an event has passed iff its time is before now |
| Dashboard.EnrollButton | frontend/src/pages/Dashboard.jsx:276-285 | disabled iff the event has passed; caption "Ended" iff disabled, else "Enroll Now" when logged in, else "Log in to Enroll" |
| Dashboard.ModalEnrollButton | frontend/src/pages/Dashboard.jsx:350-357 | absent iff the event has passed; disabled iff enrolling; caption "Enrolling...", "Enroll Now" or "Log in to Enroll" |
| Dashboard.Grid | frontend/src/pages/Dashboard.jsx:243-244 | the cards the page renders are `sortedEvents`, the listing for the current selections |
| Dashboard.UnfilteredGridShowsAll | frontend/src/pages/Dashboard.jsx:99-122 | with no filter the grid is a permutation of all events |
| Dashboard.ReplaceById | frontend/src/pages/Dashboard.jsx:44-50 | length and ids unchanged; exactly the elements whose id matches the update become the update |
| Dashboard.UnknownUpdateKeepsList | frontend/src/pages/Dashboard.jsx:44-50 | an update matching no id leaves the list unchanged |
| Dashboard.ReplaceByIdIdempotent | frontend/src/pages/Dashboard.jsx:44-50 | applying the same update twice equals applying it once |
| Dashboard.DashboardView.OnEventUpdated | frontend/src/pages/Dashboard.jsx:44-50 | the listener replaces the list by the id-wise replacement |
| MyEvents.Render | frontend/src/pages/MyEvents.jsx:82-139 | the log-in prompt shows exactly when no user is stored; a grid shows only events drawn from the fetched ones, each at most as often as fetched |
| MyEvents.CreatedRequest | frontend/src/pages/MyEvents.jsx:37-52 | `/created` is requested exactly when a user is stored, with a header from which the middleware takes exactly the stored token |
| MyEvents.RenderSpec | frontend/src/pages/MyEvents.jsx:37-91 | with no stored user nothing is requested and the log-in prompt shows; otherwise the grid lists the matching events, upcoming first, each group by time |
| SignUp.EmailAccepted | frontend/src/pages/SignUp.jsx:24-25 | the e-mail test as a scan: no white space, exactly one '@' not in first place, and a '.' with a character between it and the '@' and one after it |
| SignUp.PhoneAccepted | frontend/src/pages/SignUp.jsx:27-28 | exactly ten ASCII digits |
| SignUp.PasswordAccepted | frontend/src/pages/SignUp.jsx:30-31 | six or more characters, each from `A-Z`, `a-z`, `0-9`, '#', '@', '_' |
| SignUp.EmailAcceptedIffShape | frontend/src/pages/SignUp.jsx:24-25 | the e-mail test accepts exactly `L@D.T` with `L`, `D`, `T` non-empty and free of white space and '@', where `D` may hold dots |
| SignUp.PasswordNeedsNoMix | frontend/src/pages/SignUp.jsx:30-31 | every string of six or more characters of a single kind (lower-case, upper-case, digits, or '#', '@', '_') passes: no mix of kinds is required, whatever the message says |
| SignUp.PasswordExamples | frontend/src/pages/SignUp.jsx:30-31 | "aaaaaa" and "######" pass; "Ab1#_" (too short) and "abc def" (a space) are refused |
| SignUp.RecordErrors | frontend/src/pages/SignUp.jsx:18-33 | the error object holds a key exactly for each failed check, with that check's message |
| SignUp.ValidateForm | frontend/src/pages/SignUp.jsx:17-37 | each error key is set iff its own check fails, with its message: trimmed name empty, gender empty, no country, the e-mail scan (equal to the pattern by `EmailAcceptedIffShape`), ten digits, password class and length, confirmation mismatch. Valid iff no key is set |
| SignUp.HandleSubmit | frontend/src/pages/SignUp.jsx:39-53 | a request is sent exactly when every check passes (the e-mail check as the pattern's shape), carrying the form's values and the country's label; otherwise at least one check failed, and each error key is set iff its check fails |
| CreateEvent.Part | frontend/src/pages/CreateEvent.jsx:55-56 | a missing destructured element renders as "undefined" |
| CreateEvent.Reformat | frontend/src/pages/CreateEvent.jsx:55-56 | for every input the result splits on '-' into exactly three fields: the input's third, second and first pieces, a missing one as "undefined" |
| CreateEvent.ReformatSwapsDayAndYear | frontend/src/pages/CreateEvent.jsx:52-57 | "YYYY-MM-DD" becomes "DD-MM-YYYY" |
| CreateEvent.ReformatTwiceRestores | frontend/src/pages/CreateEvent.jsx:52-57 | reformatting twice gives back the original date text |
| CreateEvent.ReformatWithoutSeparator | frontend/src/pages/CreateEvent.jsx:55-56 | a value without '-' becomes "undefined-undefined-" followed by the value |
| CreateEvent.CreateEventForm.constructor | frontend/src/pages/CreateEvent.jsx:11-20 | four empty fields, no image, empty formatted date |
| CreateEvent.CreateEventForm.HandleChange | frontend/src/pages/CreateEvent.jsx:48-50 | only the named field changes; no field disappears |
| CreateEvent.CreateEventForm.HandleDateChange | frontend/src/pages/CreateEvent.jsx:52-59 | a non-empty value reformats the shown date, an empty one leaves it; `date` always takes the raw value and the other fields keep theirs |
| CreateEvent.CreateEventForm.HandleImageChange | frontend/src/pages/CreateEvent.jsx:61-65 | the image becomes the first selected file, or none |
| CreateEvent.CreateEventForm.FormEntries | frontend/src/pages/CreateEvent.jsx:95-102 | the four text fields are always sent, in order; the image is sent iff one is selected |
| ForgotPassword.Initial | frontend/src/pages/ForgotPassword.jsx:5-11 | the dialog starts at step 1 with every field empty |
| ForgotPassword.SendCode | frontend/src/pages/ForgotPassword.jsx:13-21 | success moves to step 2; failure sets "Failed to send code. Try again." and keeps the step |
| ForgotPassword.VerifyCode | frontend/src/pages/ForgotPassword.jsx:23-31 | success moves to step 3; failure sets "Invalid confirmation code." and keeps the step |
| ForgotPassword.ResetPassword | frontend/src/pages/ForgotPassword.jsx:33-46 | a mismatch sets "Passwords do not match." and sends nothing. Otherwise the e-mail and new password are posted; success closes without resetting, failure sets "Error resetting password. Try again." |
| ForgotPassword.HandleClose | frontend/src/pages/ForgotPassword.jsx:52-61 | every field returns to its initial value and the dialog closes |
| ForgotPassword.Enabled | frontend/src/pages/ForgotPassword.jsx:49-135 | nothing can be pressed while the dialog is closed; only the current step's inputs and button, and Cancel, are rendered |
| ForgotPassword.Common | frontend/src/pages/ForgotPassword.jsx:13-46 | typing sets its field and each step's button runs its handler; a successful reset clears `open` |
| ForgotPassword.StepAsWritten | frontend/src/pages/ForgotPassword.jsx:135 | as written: Cancel only clears `open` and keeps the dialog state; a disabled action changes nothing |
| ForgotPassword.Step | frontend/src/pages/ForgotPassword.jsx:52-61 | as intended: Cancel runs `handleClose`; every other action as written |
| ForgotPassword.CommonOnlyAdvances | frontend/src/pages/ForgotPassword.jsx:17-27 | an action other than Cancel moves the step forward by at most one and never clears an error |
| ForgotPassword.RunAsWrittenOnlyAdvances | frontend/src/pages/ForgotPassword.jsx:13-46 | within one mount of the dialog as written, along any run of presses each finishing before the next, the step never decreases, stays in 1..3, and an error once shown stays |
| ForgotPassword.RunWithoutCancelOnlyAdvances | frontend/src/pages/ForgotPassword.jsx:13-61 | with Cancel wired to `handleClose`, a run without Cancel never moves the step back or clears the error |
| ForgotPassword.RunStaysInRange | frontend/src/pages/ForgotPassword.jsx:5-61 | every reachable dialog shows step 1, 2 or 3 |
| ForgotPassword.CancelThenReopenKeepsState | frontend/src/pages/ForgotPassword.jsx:135 | as written, Cancel then reopening restores the exact earlier state |
| ForgotPassword.StaleErrorAfterCancel | frontend/src/pages/ForgotPassword.jsx:135 | as written, a failed send-code, Cancel and reopen still show "Failed to send code. Try again." |
| ForgotPassword.CancelThenReopenStartsOver | frontend/src/pages/ForgotPassword.jsx:52-61 | with Cancel wired to `handleClose`, reopening always shows the initial dialog |
| ProtectedRoute.Guard | frontend/src/pages/ProtectedRoute.jsx:8-12 | with a token the page renders; a guest without a token is redirected iff the path is "/create-event"; with neither, always redirected |

## Left out

- E-mail transport (`sendEnrollmentConfirmation`, the transport in `sendCode`) is network I/O. Its outcome is a parameter (`mailSent`, `Delivery`).
- Code generation uses `Math.random` and floating point. The mailed code is an opaque string inside `Delivery`.
- `jwt.verify` and bcrypt are foreign libraries. They are parameters (`verify`, `hash`, `salt`). Token expiry belongs to the verifier.
- The Cloudinary upload, on the back end and in the create-event page, is network I/O. Its outcome is the `Upload` parameter. The page's own upload helper and `handleSubmit`'s POST and alerts are left out.
- Date parsing and locale formatting (`new Date`, `toLocaleDateString`) are left out. A date is a `DateStamp`. Mongoose's cast of the body's date string is the `castDate` parameter.
- Lower-casing covers ASCII only. Unicode case mapping is not modelled.
- Concurrency is not modelled. Handlers run one at a time, and the race between `findById` and `save` in `/enroll` is outside the model.
- `io.emit` is kept as a log of broadcast snapshots, in order. Delivery to sockets and the server wiring are left out.
- Database failures other than those named are not modelled: a lost connection, or a malformed ObjectId in `findById` (a 500 in the source).
- `EventRoutes.EventStore.Create`: saving with an empty owner id fails. Mongoose's other cast rules for `userId` are not modelled.
- Body fields are strings or absent. JSON numbers, arrays or objects sent in place of strings are not modelled.
- `/send-code` and `/reset-password` always receive an e-mail string. A body without `email` (`findOne({ email: undefined })`) is not modelled.
- The repair branch of `/enroll` (`attendees` not an array) cannot arise: `attendees` is a sequence.
- The comparator reads the clock at every call. The model takes one `now` for a whole sort.
- The order among elements the sort ranks equal is not promised. Neither MongoDB's order for documents with equal dates nor the stability of `Array.prototype.sort` is modelled; the sort is only proved to give a sorted permutation.
- Sorting a copy leaves `events` unchanged. This holds by value semantics: `Listing` returns a new sequence.
- Dashboard `handleEnroll` is left out: network calls and alerts.
- Sign-up's API error path (`apiError`) is left out: network.
- The login page, navigation, storage access, dark mode, timers and other presentation are left out. Their results enter as parameters: `loggedIn`, the stored user, `token` and `guest`.
- `/signup` and `/login` live in `authController.js`, which is not part of this model.
- ForgotPassword.RunAsWrittenOnlyAdvances: each press is modelled as finishing, with its reply, before the next action. The handlers are async and no button is disabled while a request is pending, so overlapping requests (two send-code presses whose second reply lands after a successful verify) can move the step back from 3 to 2; the model does not capture that interleaving.
- The forgot-password dialog is modelled over one mount of the login modal. Closing the login modal (its ✖, a guest login or a successful login) unmounts the dialog and the next opening starts from the initial state; the model has no such action, so `ForgotPassword.RunAsWrittenOnlyAdvances` holds per mount only.

## Findings

| source | as written | input that shows it | evidently intended | confidence | as-written member | corrected member |
|---|---|---|---|---|---|---|
| frontend/src/pages/ForgotPassword.jsx:135 | Cancel calls the parent's `onClose`. `handleClose` (lines 52-61) is defined but never called. While the login modal is open the component stays mounted even when the dialog is closed (frontend/src/pages/Login.jsx:110), so its state survives Cancel. | open, send-code fails, Cancel, open again: the dialog shows "Failed to send code. Try again." with its old step and inputs | Cancel calls `handleClose`, so reopening starts at step 1 with empty fields and no error | medium, not executed | ForgotPassword.StaleErrorAfterCancel | ForgotPassword.CancelThenReopenStartsOver |
