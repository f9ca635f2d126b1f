/**
 * The sign-up page: the password checks made before anything is sent, the
 * birthday assembled from its three inputs, and the profile record built from
 * the form once the account exists.
 */
module Signup {
  import opened Wrappers
  import opened Strings
  import opened Database

  /** The sign-up form's fields, each the text of its input. */
  datatype SignupForm = SignupForm(
    firstName: string,
    lastName: string,
    email: string,
    phone: string,
    password: string,
    confirmPassword: string,
    houseNumber: string,
    streetName: string,
    barangay: string,
    city: string,
    province: string,
    postalCode: string,
    month: string,
    day: string,
    year: string)

  const PasswordsDoNotMatch: string := "Passwords do not match"
  const PasswordTooShort: string := "Password must be at least 6 characters"
  const MinPasswordLength: nat := 6

  /**
   * The two checks at the top of `handleSubmit`, in their order: a mismatch is
   * reported before a short password; a password passes exactly when it equals
   * its confirmation and has at least six characters.
   */
  function ValidatePasswords(password: string, confirmPassword: string): (r: Outcome)
    ensures r.Pass? <==> password == confirmPassword && |password| >= MinPasswordLength
    ensures password != confirmPassword ==> r == Fail(PasswordsDoNotMatch)
    ensures password == confirmPassword && |password| < MinPasswordLength ==> r == Fail(PasswordTooShort)
  {
    if password != confirmPassword then Fail(PasswordsDoNotMatch)
    else if |password| < MinPasswordLength then Fail(PasswordTooShort)
    else Pass
  }

  /** Six characters are enough and five are not, whatever the characters. */
  lemma PasswordLengthBoundary(p: string)
    ensures |p| == 6 ==> ValidatePasswords(p, p) == Pass
    ensures |p| == 5 ==> ValidatePasswords(p, p) == Fail(PasswordTooShort)
  {
  }

  /** `s.padStart(2, "0")`. */
  function Pad2(s: string): (r: string)
    ensures |s| >= 2 ==> r == s
    ensures |s| < 2 ==> |r| == 2 && r[2 - |s|..] == s && forall k :: 0 <= k < 2 - |s| ==> r[k] == '0'
  {
    PadStart(s, 2, '0')
  }

  /** Padding with zeros adds no separator. */
  lemma Pad2KeepsSeparatorOut(s: string)
    requires '-' !in s
    ensures '-' !in Pad2(s)
  {
    if |s| < 2 {
      var r := Pad2(s);
      var m := 2 - |s|;
      forall k | 0 <= k < 2 ensures r[k] != '-' {
        if k < m {
          assert r[k] == '0';
        } else {
          assert r[k] == r[m..][k - m];
        }
      }
    }
  }

  /**
   * The birthday to store: `${year}-${pad2(month)}-${pad2(day)}` when the
   * three inputs are all filled in, and null otherwise.
   */
  function Birthday(year: string, month: string, day: string): (r: Option<string>)
    ensures r.Some? <==> year != "" && month != "" && day != ""
    ensures r.Some? ==> r.value == Join([year, Pad2(month), Pad2(day)], '-')
  {
    if year != "" && month != "" && day != "" then
      JoinThree(year, Pad2(month), Pad2(day), '-');
      Some(year + "-" + Pad2(month) + "-" + Pad2(day))
    else None
  }

  /** The stored birthday splits back at its dashes into the year and the padded month and day. */
  lemma BirthdayRoundTrip(year: string, month: string, day: string)
    requires year != "" && month != "" && day != ""
    requires '-' !in year && '-' !in month && '-' !in day
    ensures Split(Birthday(year, month, day).value, '-') == [year, Pad2(month), Pad2(day)]
  {
    Pad2KeepsSeparatorOut(month);
    Pad2KeepsSeparatorOut(day);
    SplitJoin([year, Pad2(month), Pad2(day)], '-');
  }

  /** One-digit month and day get a leading zero; two-digit ones are kept as typed. */
  lemma BirthdayPadding(year: string, m: char, d: char, mm: string, dd: string)
    requires year != "" && |mm| == 2 && |dd| == 2
    ensures Birthday(year, [m], [d]) == Some(year + "-0" + [m] + "-0" + [d])
    ensures Birthday(year, mm, dd) == Some(year + "-" + mm + "-" + dd)
  {
    assert Repeat('0', 1) == "0";
    assert Pad2([m]) == "0" + [m];
    assert Pad2([d]) == "0" + [d];
    assert year + "-" + ("0" + [m]) + "-" + ("0" + [d]) == year + "-0" + [m] + "-0" + [d];
  }

  /** The profile record sent once the account exists (`profileData`). */
  datatype NewProfile = NewProfile(
    id: string,
    firstName: Option<string>,
    lastName: Option<string>,
    email: Option<string>,
    phoneNumber: Option<string>,
    houseNumber: Option<string>,
    streetName: Option<string>,
    barangay: Option<string>,
    city: Option<string>,
    province: Option<string>,
    postalCode: Option<string>,
    birthday: Option<string>,
    role: Role)

  /**
   * `profileData` for the new account `userId`, whose auth record holds
   * `authEmail`: every empty input becomes null, the email falls back to the
   * auth email, and the role is always staff.
   */
  function ProfileData(userId: string, authEmail: Option<string>, f: SignupForm): (r: NewProfile)
    ensures r.id == userId && r.role == Staff
    ensures r.firstName == EmptyToNull(f.firstName) && r.lastName == EmptyToNull(f.lastName)
    ensures r.phoneNumber == EmptyToNull(f.phone) && r.houseNumber == EmptyToNull(f.houseNumber)
    ensures r.streetName == EmptyToNull(f.streetName) && r.barangay == EmptyToNull(f.barangay)
    ensures r.city == EmptyToNull(f.city) && r.province == EmptyToNull(f.province)
    ensures r.postalCode == EmptyToNull(f.postalCode)
    ensures f.email != "" ==> r.email == Some(f.email)
    ensures f.email == "" ==> r.email == EmptyToNull(OrEmpty(authEmail))
    ensures r.birthday == Birthday(f.year, f.month, f.day)
  {
    NewProfile(
      userId,
      EmptyToNull(f.firstName),
      EmptyToNull(f.lastName),
      EmptyToNull(OrElse(f.email, OrEmpty(authEmail))),
      EmptyToNull(f.phone),
      EmptyToNull(f.houseNumber),
      EmptyToNull(f.streetName),
      EmptyToNull(f.barangay),
      EmptyToNull(f.city),
      EmptyToNull(f.province),
      EmptyToNull(f.postalCode),
      Birthday(f.year, f.month, f.day),
      Staff)
  }

  /** No column of the new profile ever holds an empty string. */
  lemma ProfileDataHasNoEmptyStrings(userId: string, authEmail: Option<string>, f: SignupForm)
    ensures var r := ProfileData(userId, authEmail, f);
      && r.firstName != Some("") && r.lastName != Some("") && r.email != Some("")
      && r.phoneNumber != Some("") && r.houseNumber != Some("") && r.streetName != Some("")
      && r.barangay != Some("") && r.city != Some("") && r.province != Some("")
      && r.postalCode != Some("") && r.birthday != Some("")
  {
  }

  /** What `supabase.auth.signUp` answered: an error, no user, or the new user with its id and email. */
  datatype SignUpReply = AuthFailed(message: string) | NoUser | SignedUp(userId: string, email: Option<string>)

  /** The sign-up page's `loading` flag and error banner. */
  class SignupPage {
    var loading: bool
    var error: Option<string>

    constructor ()
      ensures !loading && error == None
    {
      loading := false;
      error := None;
    }

    /**
     * `handleSubmit` with the backend's answer `reply`: a failed password
     * check shows its message and sends nothing; an auth error shows its
     * message; otherwise the profile record for the new user is returned.
     * The page is not loading afterwards in every case.
     */
    method Submit(f: SignupForm, reply: SignUpReply) returns (profile: Option<NewProfile>)
      modifies this
      ensures !loading
      ensures ValidatePasswords(f.password, f.confirmPassword).Fail? ==>
        profile.None? && error == Some(ValidatePasswords(f.password, f.confirmPassword).message)
      ensures ValidatePasswords(f.password, f.confirmPassword).Pass? && reply.AuthFailed? ==>
        profile.None? && error == Some(OrElse(reply.message, "An error occurred during signup"))
      ensures ValidatePasswords(f.password, f.confirmPassword).Pass? && reply.NoUser? ==>
        profile.None? && error == None
      ensures ValidatePasswords(f.password, f.confirmPassword).Pass? && reply.SignedUp? ==>
        profile == Some(ProfileData(reply.userId, reply.email, f)) && error == None
    {
      loading := true;
      error := None;
      profile := None;
      var check := ValidatePasswords(f.password, f.confirmPassword);
      if check.Fail? {
        error := Some(check.message);
        loading := false;
        return;
      }
      match reply {
        case AuthFailed(message) =>
          error := Some(OrElse(message, "An error occurred during signup"));
        case NoUser =>
        case SignedUp(userId, email) =>
          profile := Some(ProfileData(userId, email, f));
      }
      loading := false;
    }
  }
}
