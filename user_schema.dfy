/**
 * The user document (backend/src/models/Users.js): required fields, the
 * gender enum, and the unique index on e-mail, with the lookup the routes
 * perform (`User.findOne({ email })`).
 */
module UserSchema {
  import opened Wrappers

  /** The values the schema's enum admits for `gender`. */
  const Genders: seq<string> := ["Male", "Female", "Others", "Rather Not Say"]

  datatype User = User(
    name: string,
    gender: string,
    country: string,
    email: string,
    phone: string,
    password: string)

  /** What the schema's validators accept: every field present (a required
      string may not be empty) and `gender` one of the enum values. */
  predicate Conforms(u: User) {
    && u.name != ""
    && u.gender in Genders
    && u.country != ""
    && u.email != ""
    && u.phone != ""
    && u.password != ""
  }

  /** The unique index on `email`: no two documents share an address. */
  predicate UniqueEmails(users: seq<User>) {
    forall i, j | 0 <= i < j < |users| :: users[i].email != users[j].email
  }

  /** The first document at or after `from` whose e-mail is `email`. */
  function FindIndexFrom(users: seq<User>, email: string, from: nat): (r: Option<nat>)
    decreases |users| - from
    ensures r.Some? ==> from <= r.value < |users| && users[r.value].email == email
    ensures r.Some? ==> forall j :: from <= j < r.value ==> users[j].email != email
    ensures r.None? ==> forall j :: from <= j < |users| ==> users[j].email != email
  {
    if from >= |users| then None
    else if users[from].email == email then Some(from)
    else FindIndexFrom(users, email, from + 1)
  }

  /** `User.findOne({ email })`: the position of the first matching document. */
  function FindIndex(users: seq<User>, email: string): Option<nat> {
    FindIndexFrom(users, email, 0)
  }

  /** Because e-mail is unique, a lookup by e-mail identifies at most one
      user: whichever document carries the address is the one found. */
  lemma EmailIdentifiesUser(users: seq<User>, email: string, i: nat)
    requires UniqueEmails(users)
    requires i < |users| && users[i].email == email
    ensures FindIndex(users, email) == Some(i)
  {
  }

  datatype SaveError = ValidationError | DuplicateKey

  /** Saving a new user document: the validators run first, then the unique
      index refuses an address already taken. */
  function Insert(users: seq<User>, u: User): (r: Result<seq<User>, SaveError>)
    ensures r.Success? <==> Conforms(u) && FindIndex(users, u.email).None?
    ensures r.Success? ==> r.value == users + [u]
    ensures r.Failure? && !Conforms(u) ==> r.error == ValidationError
    ensures UniqueEmails(users) && r.Success? ==> UniqueEmails(r.value)
  {
    if !Conforms(u) then Failure(ValidationError)
    else if FindIndex(users, u.email).Some? then Failure(DuplicateKey)
    else Success(users + [u])
  }

  /** Changing a field other than `email` keeps the index satisfied. */
  lemma {:induction false} SetPasswordKeepsUnique(users: seq<User>, i: nat, password: string)
    requires UniqueEmails(users) && i < |users|
    ensures UniqueEmails(users[i := users[i].(password := password)])
  {
    var after := users[i := users[i].(password := password)];
    assert forall k | 0 <= k < |users| :: after[k].email == users[k].email;
  }
}
