/** The request-body validators run before a user is created or a profile is
    updated (src/utils/validation.js). They read the body as sent, before the
    schema's setters trim or lowercase anything. */
module Validation {
  import opened Common
  import opened Strings
  import opened UserModel

  /** The error each branch of the chains raises. */
  datatype ValidationError =
    | InvalidName          // "Invalid name"
    | InvalidEmail         // "Invalid email"
    | PasswordUnreadable   // reading `.length` of a missing password throws a TypeError
    | WeakPassword         // "Weak password"
    | InvalidAddress       // "Invalid address"
    | AgeReassigned        // `age--` on the `const age` of the sign-up validator throws a TypeError
    | TooYoung             // "Must be at least 18 years old"
    | InvalidGender        // "Invalid gender"
    | NoInterests          // "Please select at least one interest"
    | MissingPhotos        // "Please upload all 3 profile photos"

  predicate NameAccepted(name: Option<string>)
  {
    Truthy(name) && 3 <= |name.value| <= 20
  }

  /** This year's birthday is still to come: an earlier month, or the same month
      and an earlier day. */
  predicate BirthdayPending(today: Date, dob: Date)
  {
    today.month < dob.month || (today.month == dob.month && today.day < dob.day)
  }

  /** `today.getFullYear() - birthDate.getFullYear()`. */
  function YearDifference(today: Date, dob: Date): int
  {
    today.year - dob.year
  }

  predicate GenderAccepted(gender: Option<string>)
  {
    Truthy(gender) && ToLower(gender.value) in ["male", "female", "other"]
  }

  predicate PhotosAccepted(photos: Option<seq<string>>)
  {
    photos.Some? && |photos.value| == 3
  }

  /** The age branch shared by both chains; a missing or unparseable date makes
      every comparison false and skips it. */
  function AgeCheck(today: Date, dob: Option<Date>, pending: ValidationError): Option<ValidationError>
  {
    if dob.None? then None
    else if BirthdayPending(today, dob.value) then Some(pending)
    else if YearDifference(today, dob.value) < 18 then Some(TooYoung)
    else None
  }

  /** `ValidateSignUpData`. */
  function ValidateSignUp(body: UserDoc, today: Date, isEmail: string -> bool): (r: Outcome<ValidationError>)
    ensures r.Fail? && r.error == InvalidName <==> !NameAccepted(body.name)
    ensures r.Fail? && r.error == InvalidEmail <==>
      NameAccepted(body.name) && !(Truthy(body.email) && isEmail(body.email.value))
  {
    if !NameAccepted(body.name) then Fail(InvalidName)
    else if !Truthy(body.email) || !isEmail(body.email.value) then Fail(InvalidEmail)
    else if body.password.None? then Fail(PasswordUnreadable)
    else if |body.password.value| < 8 then Fail(WeakPassword)
    else if !Truthy(body.address) then Fail(InvalidAddress)
    else match AgeCheck(today, body.dob, AgeReassigned)
      case Some(e) => Fail(e)
      case None =>
        if !GenderAccepted(body.gender) then Fail(InvalidGender)
        else if body.selectedInterests.None? || |body.selectedInterests.value| == 0 then Fail(NoInterests)
        else if !PhotosAccepted(body.profilePhotos) then Fail(MissingPhotos)
        else Pass
  }

  /** `ValidateUpdateProfileData`: no email, password or interest checks, and a
      pending birthday ends the chain without an error. */
  function ValidateUpdateProfile(body: UserDoc, today: Date): (r: Outcome<ValidationError>)
    ensures r.Fail? && r.error == InvalidName <==> !NameAccepted(body.name)
    ensures r.Fail? ==> r.error in {InvalidName, InvalidAddress, TooYoung, InvalidGender, MissingPhotos}
  {
    if !NameAccepted(body.name) then Fail(InvalidName)
    else if !Truthy(body.address) then Fail(InvalidAddress)
    else if body.dob.Some? && BirthdayPending(today, body.dob.value) then Pass
    else match AgeCheck(today, body.dob, TooYoung)
      case Some(e) => Fail(e)
      case None =>
        if !GenderAccepted(body.gender) then Fail(InvalidGender)
        else if !PhotosAccepted(body.profilePhotos) then Fail(MissingPhotos)
        else Pass
  }

  /** Sign-up passes exactly when every check holds; a known birth date then
      means a birthday already reached this year and at least 18 years. */
  lemma {:induction false} SignUpPassesExactlyWhen(body: UserDoc, today: Date, isEmail: string -> bool)
    ensures ValidateSignUp(body, today, isEmail).Pass? <==>
      && NameAccepted(body.name)
      && Truthy(body.email) && isEmail(body.email.value)
      && body.password.Some? && |body.password.value| >= 8
      && Truthy(body.address)
      && (body.dob.Some? ==> !BirthdayPending(today, body.dob.value) && YearDifference(today, body.dob.value) >= 18)
      && GenderAccepted(body.gender)
      && body.selectedInterests.Some? && |body.selectedInterests.value| > 0
      && PhotosAccepted(body.profilePhotos)
  {
  }

  /** A profile update passes exactly when name and address hold and then either
      the birthday is pending, or age, gender and photos all hold. */
  lemma {:induction false} UpdatePassesExactlyWhen(body: UserDoc, today: Date)
    ensures ValidateUpdateProfile(body, today).Pass? <==>
      && NameAccepted(body.name)
      && Truthy(body.address)
      && ((body.dob.Some? && BirthdayPending(today, body.dob.value))
          || (&& (body.dob.Some? ==> YearDifference(today, body.dob.value) >= 18)
              && GenderAccepted(body.gender)
              && PhotosAccepted(body.profilePhotos)))
  {
  }

  /** An else-if chain read as a list of (check holds, error if not): the result is
      the error of the first check from position k on that fails. */
  function FirstFailure(checks: seq<(bool, ValidationError)>, k: nat): (r: Outcome<ValidationError>)
    requires k <= |checks|
    ensures r.Pass? <==> forall i :: k <= i < |checks| ==> checks[i].0
    ensures r.Fail? ==> exists i :: k <= i < |checks| && !checks[i].0 && checks[i].1 == r.error
                                   && forall j :: k <= j < i ==> checks[j].0
    decreases |checks| - k
  {
    if k == |checks| then Pass
    else if !checks[k].0 then Fail(checks[k].1)
    else FirstFailure(checks, k + 1)
  }

  /** The sign-up checks in the order the chain makes them. */
  function SignUpChecks(body: UserDoc, today: Date, isEmail: string -> bool): seq<(bool, ValidationError)>
  {
    [ (NameAccepted(body.name), InvalidName),
      (Truthy(body.email) && isEmail(body.email.value), InvalidEmail),
      (body.password.Some?, PasswordUnreadable),
      (body.password.Some? ==> |body.password.value| >= 8, WeakPassword),
      (Truthy(body.address), InvalidAddress),
      (body.dob.Some? ==> !BirthdayPending(today, body.dob.value), AgeReassigned),
      (body.dob.Some? ==> YearDifference(today, body.dob.value) >= 18, TooYoung),
      (GenderAccepted(body.gender), InvalidGender),
      (body.selectedInterests.Some? && |body.selectedInterests.value| > 0, NoInterests),
      (PhotosAccepted(body.profilePhotos), MissingPhotos) ]
  }

  /** The profile-update checks; a pending birthday satisfies every later one. */
  function UpdateChecks(body: UserDoc, today: Date): seq<(bool, ValidationError)>
  {
    var pending := body.dob.Some? && BirthdayPending(today, body.dob.value);
    [ (NameAccepted(body.name), InvalidName),
      (Truthy(body.address), InvalidAddress),
      (pending || body.dob.None? || YearDifference(today, body.dob.value) >= 18, TooYoung),
      (pending || GenderAccepted(body.gender), InvalidGender),
      (pending || PhotosAccepted(body.profilePhotos), MissingPhotos) ]
  }

  /** Sign-up reports the first failing check of its list, and only that one. */
  lemma SignUpReportsFirstFailure(body: UserDoc, today: Date, isEmail: string -> bool)
    ensures ValidateSignUp(body, today, isEmail) == FirstFailure(SignUpChecks(body, today, isEmail), 0)
  {
    var c := SignUpChecks(body, today, isEmail);
    if !c[0].0 { return; }
    assert FirstFailure(c, 0) == FirstFailure(c, 1);
    if !c[1].0 { return; }
    assert FirstFailure(c, 1) == FirstFailure(c, 2);
    if !c[2].0 { return; }
    assert FirstFailure(c, 2) == FirstFailure(c, 3);
    if !c[3].0 { return; }
    assert FirstFailure(c, 3) == FirstFailure(c, 4);
    if !c[4].0 { return; }
    assert FirstFailure(c, 4) == FirstFailure(c, 5);
    SignUpReportsLaterFailure(body, today, isEmail);
  }

  /** Once name, email, password and address pass, sign-up reports the first
      failing check among the rest. */
  lemma SignUpReportsLaterFailure(body: UserDoc, today: Date, isEmail: string -> bool)
    requires forall i :: 0 <= i < 5 ==> SignUpChecks(body, today, isEmail)[i].0
    ensures ValidateSignUp(body, today, isEmail) == FirstFailure(SignUpChecks(body, today, isEmail), 5)
  {
    var c := SignUpChecks(body, today, isEmail);
    assert c[0].0 && c[1].0 && c[2].0 && c[3].0 && c[4].0;
    if !c[5].0 { return; }
    assert FirstFailure(c, 5) == FirstFailure(c, 6);
    if !c[6].0 { return; }
    assert FirstFailure(c, 6) == FirstFailure(c, 7);
    if !c[7].0 { return; }
    assert FirstFailure(c, 7) == FirstFailure(c, 8);
    if !c[8].0 { return; }
    assert FirstFailure(c, 8) == FirstFailure(c, 9);
    if !c[9].0 { return; }
    assert FirstFailure(c, 9) == FirstFailure(c, 10);
  }

  /** A profile update reports the first failing check of its list. */
  lemma UpdateReportsFirstFailure(body: UserDoc, today: Date)
    ensures ValidateUpdateProfile(body, today) == FirstFailure(UpdateChecks(body, today), 0)
  {
    var c := UpdateChecks(body, today);
    if !c[0].0 { return; }
    assert FirstFailure(c, 0) == FirstFailure(c, 1);
    if !c[1].0 { return; }
    assert FirstFailure(c, 1) == FirstFailure(c, 2);
    if !c[2].0 { return; }
    assert FirstFailure(c, 2) == FirstFailure(c, 3);
    if !c[3].0 { return; }
    assert FirstFailure(c, 3) == FirstFailure(c, 4);
    if !c[4].0 { return; }
    assert FirstFailure(c, 4) == FirstFailure(c, 5);
  }

  /** With a birthday still to come, a profile update no longer looks at age,
      gender or photos, while sign-up fails however old the user is. */
  lemma PendingBirthdayDiverges(body: UserDoc, today: Date, isEmail: string -> bool)
    requires body.dob.Some? && BirthdayPending(today, body.dob.value)
    ensures NameAccepted(body.name) && Truthy(body.address) ==> ValidateUpdateProfile(body, today).Pass?
    ensures NameAccepted(body.name) && Truthy(body.email) && isEmail(body.email.value)
            && body.password.Some? && |body.password.value| >= 8 && Truthy(body.address)
            ==> ValidateSignUp(body, today, isEmail) == Fail(AgeReassigned)
  {
  }

  /** So every sign-up whose birthday is still to come this year is refused, even
      one from a user well over 18. */
  lemma SignUpRefusesEveryPendingBirthday(body: UserDoc, today: Date, isEmail: string -> bool)
    requires body.dob.Some? && BirthdayPending(today, body.dob.value)
    ensures ValidateSignUp(body, today, isEmail).Fail?
  {
    SignUpPassesExactlyWhen(body, today, isEmail);
  }

  /** A three-character name passes the validator but not the schema's minimum of four. */
  lemma ThreeCharNamePassesValidationFailsSchema(body: UserDoc, isEmail: string -> bool)
    requires body.name.Some? && |body.name.value| == 3
    ensures NameAccepted(body.name)
    ensures NamePath in SchemaErrors(ApplySetters(body), isEmail)
  {
  }

  /** Lower-case `"male"` passes the validator but not the case-sensitive enum. */
  lemma LowercaseGenderPassesValidationFailsSchema(body: UserDoc, isEmail: string -> bool)
    requires body.gender == Some("male")
    ensures GenderAccepted(body.gender)
    ensures GenderPath in SchemaErrors(ApplySetters(body), isEmail)
  {
    var s := "male";
    assert forall i :: 0 <= i < |s| ==> !IsUpper(s[i]);
    assert ToLower(s) == s;
    assert s !in ["Male", "Female", "Other"] by {
      assert s[0] != "Male"[0] && |s| != |"Female"| && |s| != |"Other"|;
    }
    assert !GenderValid(ApplySetters(body));
  }

  /** One or two interests pass the validator but not the schema's minimum of three. */
  lemma FewInterestsPassValidationFailSchema(body: UserDoc, isEmail: string -> bool)
    requires body.selectedInterests.Some? && 1 <= |body.selectedInterests.value| <= 2
    ensures !(body.selectedInterests.None? || |body.selectedInterests.value| == 0)
    ensures InterestsPath in SchemaErrors(ApplySetters(body), isEmail)
  {
  }
}
