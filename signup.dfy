/**
 * The sign-up form's validation (frontend/src/pages/SignUp.jsx): seven
 * independent field checks, three of them regular expressions, written
 * here as explicit predicates, and the submit guard.
 */
module SignUp {
  import opened Wrappers
  import opened JsText

  /** An option of the country picker; `display` is its `label`. */
  datatype CountryOption = CountryOption(display: string, value: string)

  /** The form's state variables. `country` is `null` until one is picked. */
  datatype Form = Form(
    name: string,
    gender: string,
    country: Option<CountryOption>,
    email: string,
    phone: string,
    password: string,
    confirmPassword: string)

  /** A piece of an address as `[^\s@]+` admits it: non-empty, without white
      space and without '@'. */
  predicate AddressPart(s: string) {
    s != [] && forall k :: 0 <= k < |s| ==> !IsWhitespace(s[k]) && s[k] != '@'
  }

  /** The shape `/^[^\s@]+@[^\s@]+\.[^\s@]+$/` describes: local part, '@',
      domain, '.', top-level part. The domain may itself contain dots. */
  ghost predicate EmailShape(s: string) {
    exists l: string, d: string, t: string ::
      s == l + "@" + d + "." + t && AddressPart(l) && AddressPart(d) && AddressPart(t)
  }

  /** The e-mail test as a scan: no white space, exactly one '@', not first,
      and a '.' with at least one character between it and the '@' and at
      least one after it. */
  predicate EmailAccepted(s: string) {
    && (forall k :: 0 <= k < |s| ==> !IsWhitespace(s[k]))
    && exists i | 0 < i < |s| ::
         && s[i] == '@'
         && (forall k :: 0 <= k < |s| && s[k] == '@' ==> k == i)
         && exists j | i + 1 < j < |s| - 1 :: s[j] == '.'
  }

  /** The scan accepts exactly the strings of the regular expression's shape. */
  lemma EmailAcceptedIffShape(s: string)
    ensures EmailAccepted(s) <==> EmailShape(s)
  {
    if EmailAccepted(s) {
      var i :| 0 < i < |s| && s[i] == '@' && (forall k :: 0 <= k < |s| && s[k] == '@' ==> k == i)
                && exists j | i + 1 < j < |s| - 1 :: s[j] == '.';
      var j :| i + 1 < j < |s| - 1 && s[j] == '.';
      AcceptedHasShape(s, i, j);
    }
    if EmailShape(s) {
      var l: string, d: string, t: string :|
        s == l + "@" + d + "." + t && AddressPart(l) && AddressPart(d) && AddressPart(t);
      ShapeIsAccepted(s, l, d, t);
    }
  }

  lemma AcceptedHasShape(s: string, i: int, j: int)
    requires forall k :: 0 <= k < |s| ==> !IsWhitespace(s[k])
    requires 0 < i && i + 1 < j < |s| - 1 && s[i] == '@' && s[j] == '.'
    requires forall k :: 0 <= k < |s| && s[k] == '@' ==> k == i
    ensures EmailShape(s)
  {
    var l, d, t := s[..i], s[i + 1..j], s[j + 1..];
    assert s == l + "@" + d + "." + t;
    assert AddressPart(l);
    assert AddressPart(d) by {
      forall k | 0 <= k < |d| ensures d[k] == s[i + 1 + k] { }
    }
    assert AddressPart(t) by {
      forall k | 0 <= k < |t| ensures t[k] == s[j + 1 + k] { }
    }
  }

  lemma ShapeIsAccepted(s: string, l: string, d: string, t: string)
    requires s == l + "@" + d + "." + t && AddressPart(l) && AddressPart(d) && AddressPart(t)
    ensures EmailAccepted(s)
  {
    var i, j := |l|, |l| + 1 + |d|;
    assert s[i] == '@' && s[j] == '.';
    forall k | 0 <= k < |s|
      ensures !IsWhitespace(s[k]) && (s[k] == '@' ==> k == i)
    {
      if k < i { assert s[k] == l[k]; }
      else if i < k < j { assert s[k] == d[k - i - 1]; }
      else if j < k { assert s[k] == t[k - j - 1]; }
    }
  }

  /** `/^[0-9]{10}$/`: exactly ten ASCII digits. */
  predicate PhoneAccepted(s: string) {
    |s| == 10 && forall k :: 0 <= k < |s| ==> '0' <= s[k] <= '9'
  }

  /** A character of the class `[A-Za-z0-9#@_]`. */
  predicate PasswordChar(c: char) {
    ('A' <= c <= 'Z') || ('a' <= c <= 'z') || ('0' <= c <= '9') || c == '#' || c == '@' || c == '_'
  }

  /** `/^[A-Za-z0-9#@_]{6,}$/`: six or more characters, all from the class. */
  predicate PasswordAccepted(s: string) {
    |s| >= 6 && forall k :: 0 <= k < |s| ==> PasswordChar(s[k])
  }

  /** The expression requires no mix of character kinds, whatever the error
      message says: six or more characters all of one kind (lower-case
      letters, upper-case letters, digits, or any of '#', '@', '_') pass. */
  lemma PasswordNeedsNoMix(s: string)
    requires |s| >= 6
    requires || (forall k :: 0 <= k < |s| ==> 'a' <= s[k] <= 'z')
             || (forall k :: 0 <= k < |s| ==> 'A' <= s[k] <= 'Z')
             || (forall k :: 0 <= k < |s| ==> '0' <= s[k] <= '9')
             || (forall k :: 0 <= k < |s| ==> s[k] in "#@_")
    ensures PasswordAccepted(s)
  {
  }

  /** What the test does refuse: five characters even of mixed kinds, and a
      long enough string with a space in it. */
  lemma PasswordExamples()
    ensures PasswordAccepted("aaaaaa") && PasswordAccepted("######")
    ensures !PasswordAccepted("Ab1#_") && !PasswordAccepted("abc def")
  {
    assert "abc def"[3] == ' ';
  }

  const NameError: string := "Name is required"
  const GenderError: string := "Please select a gender"
  const CountryError: string := "Please select a country"
  const EmailError: string := "Invalid email format"
  const PhoneError: string := "Enter a valid 10-digit phone number"
  const PasswordError: string := "Password must be at least 6 characters and include A-Z, a-z, 0-9, #@_"
  const ConfirmError: string := "Passwords do not match"

  /** The keys `validateForm` may set in its error object. */
  datatype Field = Name | Gender | Country | Email | Phone | Password | ConfirmPassword

  /** `newErrors` after the seven `if` statements, given which checks failed. */
  method RecordErrors(noName: bool, noGender: bool, noCountry: bool, badEmail: bool,
                      badPhone: bool, badPassword: bool, mismatch: bool)
    returns (errors: map<Field, string>)
    ensures (Name in errors <==> noName) && (Name in errors ==> errors[Name] == NameError)
    ensures (Gender in errors <==> noGender) && (Gender in errors ==> errors[Gender] == GenderError)
    ensures (Country in errors <==> noCountry) && (Country in errors ==> errors[Country] == CountryError)
    ensures (Email in errors <==> badEmail) && (Email in errors ==> errors[Email] == EmailError)
    ensures (Phone in errors <==> badPhone) && (Phone in errors ==> errors[Phone] == PhoneError)
    ensures (Password in errors <==> badPassword) && (Password in errors ==> errors[Password] == PasswordError)
    ensures (ConfirmPassword in errors <==> mismatch) && (ConfirmPassword in errors ==> errors[ConfirmPassword] == ConfirmError)
  {
    errors := map[];
    if noName { errors := errors[Name := NameError]; }
    if noGender { errors := errors[Gender := GenderError]; }
    if noCountry { errors := errors[Country := CountryError]; }
    if badEmail { errors := errors[Email := EmailError]; }
    if badPhone { errors := errors[Phone := PhoneError]; }
    if badPassword { errors := errors[Password := PasswordError]; }
    if mismatch { errors := errors[ConfirmPassword := ConfirmError]; }
  }

  /** `validateForm()`: every check runs; the new error object holds one
      entry per failed check, with that check's message; the form is valid
      exactly when the object is empty. The e-mail check is the scan
      `EmailAccepted`, which `EmailAcceptedIffShape` ties to the pattern. */
  method ValidateForm(f: Form) returns (valid: bool, errors: map<Field, string>)
    ensures (Name in errors <==> Trim(f.name) == "") && (Name in errors ==> errors[Name] == NameError)
    ensures (Gender in errors <==> f.gender == "") && (Gender in errors ==> errors[Gender] == GenderError)
    ensures (Country in errors <==> f.country.None?) && (Country in errors ==> errors[Country] == CountryError)
    ensures (Email in errors <==> !EmailAccepted(f.email)) && (Email in errors ==> errors[Email] == EmailError)
    ensures (Phone in errors <==> !PhoneAccepted(f.phone)) && (Phone in errors ==> errors[Phone] == PhoneError)
    ensures (Password in errors <==> !PasswordAccepted(f.password))
    ensures Password in errors ==> errors[Password] == PasswordError
    ensures (ConfirmPassword in errors <==> f.password != f.confirmPassword)
    ensures ConfirmPassword in errors ==> errors[ConfirmPassword] == ConfirmError
    ensures valid <==> errors == map[]
  {
    errors := RecordErrors(Trim(f.name) == "", f.gender == "", f.country.None?, !EmailAccepted(f.email),
                           !PhoneAccepted(f.phone), !PasswordAccepted(f.password), f.password != f.confirmPassword);
    valid := errors == map[];
  }

  /** The body posted to `/api/auth/signup`. */
  datatype SignupRequest = SignupRequest(
    name: string, gender: string, country: string, email: string, phone: string, password: string)

  /** `handleSubmit`: a request is sent exactly when validation passes, and
      carries the form's values and the picked country's label; otherwise
      some check failed and its error is recorded. */
  method HandleSubmit(f: Form) returns (request: Option<SignupRequest>, errors: map<Field, string>)
    ensures request.None? <==> errors != map[]
    ensures request.Some? ==>
              && f.country.Some?
              && request.value == SignupRequest(f.name, f.gender, f.country.value.display, f.email, f.phone, f.password)
              && Trim(f.name) != "" && f.gender != "" && EmailShape(f.email) && PhoneAccepted(f.phone)
              && PasswordAccepted(f.password) && f.password == f.confirmPassword
    ensures request.None? ==>
              || Trim(f.name) == "" || f.gender == "" || f.country.None? || !EmailShape(f.email)
              || !PhoneAccepted(f.phone) || !PasswordAccepted(f.password) || f.password != f.confirmPassword
    ensures (Name in errors <==> Trim(f.name) == "") && (Email in errors <==> !EmailShape(f.email))
    ensures (Gender in errors <==> f.gender == "") && (Country in errors <==> f.country.None?)
    ensures (Phone in errors <==> !PhoneAccepted(f.phone)) && (Password in errors <==> !PasswordAccepted(f.password))
    ensures ConfirmPassword in errors <==> f.password != f.confirmPassword
  {
    var valid;
    valid, errors := ValidateForm(f);
    EmailAcceptedIffShape(f.email);
    if !valid {
      var k :| k in errors;
      assert k.Name? || k.Gender? || k.Country? || k.Email? || k.Phone? || k.Password? || k.ConfirmPassword?;
      return None, errors;
    }
    request := Some(SignupRequest(f.name, f.gender, f.country.value.display, f.email, f.phone, f.password));
  }
}
