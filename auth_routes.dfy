/**
 * The password-reset routes (backend/src/routes/authRoutes.js): the
 * module-level `codeStorage` map from e-mail to one-time code, and the three
 * handlers `/send-code`, `/verify-code` and `/reset-password`.
 *
 * The code generator and the mail transport are one parameter, `Delivery`:
 * either the code that was mailed or a failure. bcrypt is a parameter
 * `hash` applied to the new password and a salt supplied by the caller.
 */
module AuthRoutes {
  import opened Wrappers
  import opened Http
  import opened UserSchema

  type CodeTable = map<string, string>

  /** `codeStorage.get(email)`: `None` (undefined) when the body has no e-mail
      or no code is stored for it. */
  function Stored(t: CodeTable, email: Option<string>): Option<string> {
    if email.Some? && email.value in t then Some(t[email.value]) else None
  }

  /** The strict comparison `codeStorage.get(email) === code`. */
  predicate CodeMatches(t: CodeTable, email: Option<string>, code: Option<string>) {
    Stored(t, email) == code
  }

  /** What `sendCode(email)` did: mailed this code, or threw. */
  datatype Delivery = Delivered(code: string) | DeliveryFailed

  /** A handler's effect on the table and the response it sends. */
  datatype Step = Step(table: CodeTable, response: Response)

  /** `/send-code`: a code is stored, and 200 sent, exactly when the address
      belongs to a user and the code was mailed; any other outcome leaves the
      table as it was. */
  function SendCode(t: CodeTable, users: seq<User>, email: string, delivery: Delivery): (r: Step)
    ensures FindIndex(users, email).None? ==> r.response.status == 400
    ensures r.response.status == 200 <==> FindIndex(users, email).Some? && delivery.Delivered?
    ensures r.response.status == 200 ==> r.table == t[email := delivery.code]
    ensures r.response.status != 200 ==> r.table == t
  {
    if FindIndex(users, email).None? then Step(t, Response(400, "User not found"))
    else match delivery
      case DeliveryFailed => Step(t, Response(500, "Server error"))
      case Delivered(code) => Step(t[email := code], Response(200, "Code sent successfully"))
  }

  /** `/verify-code`: 200 exactly on a match, which deletes the address's
      entry and keeps every other; a mismatch leaves the table as it was. */
  function VerifyCode(t: CodeTable, email: Option<string>, code: Option<string>): (r: Step)
    ensures r.response.status == 200 <==> CodeMatches(t, email, code)
    ensures r.response.status != 200 ==> r.table == t
    ensures forall k :: k in r.table <==> k in t && (r.response.status != 200 || email.None? || k != email.value)
    ensures forall k :: k in r.table ==> r.table[k] == t[k]
  {
    if CodeMatches(t, email, code) then
      Step(if email.Some? then t - {email.value} else t, Response(200, "Code verified successfully"))
    else
      Step(t, Response(400, "Invalid code"))
  }

  /** The user documents after `/reset-password`, and its response. */
  datatype ResetStep = ResetStep(users: seq<User>, response: Response)

  /** `/reset-password`: it never looks at the code table. A missing new
      password makes bcrypt throw, which the handler turns into a 500. */
  function ResetPassword(users: seq<User>, email: string, newPassword: Option<string>,
                         salt: string, hash: (string, string) -> string): (r: ResetStep)
    ensures |r.users| == |users|
    ensures FindIndex(users, email).None? ==> r.response == Response(400, "User not found")
    ensures FindIndex(users, email).Some? && newPassword.None? ==> r.response == Response(500, "Server error")
    ensures r.response.status == 200 <==> FindIndex(users, email).Some? && newPassword.Some?
    ensures r.response.status != 200 ==> r.users == users
    ensures r.response.status == 200 ==>
              forall k :: 0 <= k < |users| && k != FindIndex(users, email).value ==> r.users[k] == users[k]
  {
    match FindIndex(users, email)
    case None => ResetStep(users, Response(400, "User not found"))
    case Some(i) =>
      if newPassword.None? then ResetStep(users, Response(500, "Server error"))
      else ResetStep(users[i := users[i].(password := hash(newPassword.value, salt))],
                     Response(200, "Password reset successfully"))
  }

  /** send-code for an address with no user is refused and stores nothing. */
  lemma UnknownUserStoresNothing(t: CodeTable, users: seq<User>, email: string, delivery: Delivery)
    requires forall i :: 0 <= i < |users| ==> users[i].email != email
    ensures SendCode(t, users, email, delivery) == Step(t, Response(400, "User not found"))
  {
  }

  /** When delivery throws nothing is stored; a known user is answered 500
      "Server error", an unknown address 400 as before. */
  lemma FailedDeliveryStoresNothing(t: CodeTable, users: seq<User>, email: string)
    ensures SendCode(t, users, email, DeliveryFailed).table == t
    ensures FindIndex(users, email).Some? ==>
              SendCode(t, users, email, DeliveryFailed) == Step(t, Response(500, "Server error"))
    ensures FindIndex(users, email).None? ==>
              SendCode(t, users, email, DeliveryFailed) == Step(t, Response(400, "User not found"))
  {
  }

  /** A successful send-code makes the mailed code the one stored for that
      address, whatever was stored before, and leaves other addresses alone. */
  lemma SendCodeOverwrites(t: CodeTable, users: seq<User>, email: string, code: string, other: string)
    requires FindIndex(users, email).Some?
    requires other != email
    ensures SendCode(t, users, email, Delivered(code)).response.status == 200
    ensures Stored(SendCode(t, users, email, Delivered(code)).table, Some(email)) == Some(code)
    ensures Stored(SendCode(t, users, email, Delivered(code)).table, Some(other)) == Stored(t, Some(other))
  {
  }

  /** A matching code verifies once: the entry is consumed, so the same code
      submitted again is refused. */
  lemma CodeIsSingleUse(t: CodeTable, email: string, code: string)
    requires Stored(t, Some(email)) == Some(code)
    ensures VerifyCode(t, Some(email), Some(code)).response.status == 200
    ensures email !in VerifyCode(t, Some(email), Some(code)).table
    ensures VerifyCode(VerifyCode(t, Some(email), Some(code)).table, Some(email), Some(code)).response ==
            Response(400, "Invalid code")
  {
  }

  /** A wrong code changes nothing, so the right one still verifies afterwards. */
  lemma MismatchAllowsRetry(t: CodeTable, email: string, wrong: Option<string>, right: string)
    requires Stored(t, Some(email)) == Some(right) && wrong != Some(right)
    ensures VerifyCode(t, Some(email), wrong) == Step(t, Response(400, "Invalid code"))
    ensures VerifyCode(VerifyCode(t, Some(email), wrong).table, Some(email), Some(right)).response.status == 200
  {
  }

  /** Last issued wins: after a second send-code for the same address, the
      first code no longer verifies (unless the two codes happen to coincide). */
  lemma ReissueInvalidatesEarlierCode(t: CodeTable, users: seq<User>, email: string, first: string, second: string)
    requires FindIndex(users, email).Some?
    requires first != second
    ensures var t1 := SendCode(t, users, email, Delivered(first)).table;
            var t2 := SendCode(t1, users, email, Delivered(second)).table;
            && VerifyCode(t2, Some(email), Some(first)) == Step(t2, Response(400, "Invalid code"))
            && VerifyCode(t2, Some(email), Some(second)).response.status == 200
  {
  }

  /** Strict equality on `get`: with no entry for the address (or no address
      at all) and no `code` in the body, undefined === undefined holds and the
      request is answered 200. */
  lemma AbsentCodeMatchesAbsentEntry(t: CodeTable, email: Option<string>)
    requires email.None? || email.value !in t
    ensures VerifyCode(t, email, None) == Step(t, Response(200, "Code verified successfully"))
  {
  }

  /** reset-password for a known user replaces exactly that user's password
      with the hash of the new one, keeps every other document and field, and
      keeps e-mails unique; for an unknown address it is refused. */
  lemma {:induction false} ResetReplacesOnePassword(users: seq<User>, email: string, newPassword: string,
                                                    salt: string, hash: (string, string) -> string)
    requires UniqueEmails(users)
    ensures var r := ResetPassword(users, email, Some(newPassword), salt, hash);
            && UniqueEmails(r.users)
            && |r.users| == |users|
            && (FindIndex(users, email).None? <==> r.response == Response(400, "User not found"))
            && (FindIndex(users, email).None? ==> r.users == users)
            && forall k :: 0 <= k < |users| ==>
                 if users[k].email == email
                 then r.users[k] == users[k].(password := hash(newPassword, salt))
                 else r.users[k] == users[k]
  {
    match FindIndex(users, email)
    case None =>
    case Some(i) =>
      SetPasswordKeepsUnique(users, i, hash(newPassword, salt));
      forall k | 0 <= k < |users| && users[k].email == email
        ensures k == i
      {
        EmailIdentifiesUser(users, email, k);
      }
  }

  /** The routes' state: `codeStorage`, and the user collection they query. */
  class AuthRouter {
    var codeStorage: CodeTable
    var users: seq<User>

    constructor (users: seq<User>)
      ensures codeStorage == map[] && this.users == users
    {
      codeStorage := map[];
      this.users := users;
    }

    method HandleSendCode(email: string, delivery: Delivery) returns (res: Response)
      modifies this`codeStorage
      ensures Step(codeStorage, res) == SendCode(old(codeStorage), users, email, delivery)
    {
      var user := FindIndex(users, email);
      if user.None? {
        return Response(400, "User not found");
      }
      if delivery.DeliveryFailed? {
        return Response(500, "Server error");
      }
      codeStorage := codeStorage[email := delivery.code];
      res := Response(200, "Code sent successfully");
    }

    method HandleVerifyCode(email: Option<string>, code: Option<string>) returns (res: Response)
      modifies this`codeStorage
      ensures Step(codeStorage, res) == VerifyCode(old(codeStorage), email, code)
    {
      var current := if email.Some? && email.value in codeStorage then Some(codeStorage[email.value]) else None;
      if current == code {
        if email.Some? {
          codeStorage := codeStorage - {email.value};
        }
        res := Response(200, "Code verified successfully");
      } else {
        res := Response(400, "Invalid code");
      }
    }

    /** Changes only the user documents: the code table is neither consulted
        nor touched, so a reset needs no prior verification. */
    method HandleResetPassword(email: string, newPassword: Option<string>, salt: string,
                               hash: (string, string) -> string) returns (res: Response)
      modifies this`users
      ensures ResetStep(users, res) == ResetPassword(old(users), email, newPassword, salt, hash)
      ensures codeStorage == old(codeStorage)
    {
      var user := FindIndex(users, email);
      if user.None? {
        return Response(400, "User not found");
      }
      if newPassword.None? {
        return Response(500, "Server error");
      }
      var i := user.value;
      users := users[i := users[i].(password := hash(newPassword.value, salt))];
      res := Response(200, "Password reset successfully");
    }
  }
}
