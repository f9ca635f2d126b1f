/**
 * The profile page: the form filled from the stored profile, saving it, and
 * uploading a license file under a generated storage path.
 */
module ProfileSettings {
  import opened Wrappers
  import opened Strings
  import opened Database
  import opened Names
  import Signup

  /** The largest license file accepted: 5 MiB. */
  const MaxLicenseBytes: nat := 5 * 1024 * 1024
  const FileTooLarge: string := "File size must be less than 5MB"

  /** The chosen file's name and its size in bytes. */
  datatype FileInfo = FileInfo(name: string, size: nat)

  /** The size check: a file over 5 MiB is refused; exactly 5 MiB passes. */
  function CheckSize(size: nat): (r: Outcome)
    ensures r.Pass? <==> size <= MaxLicenseBytes
    ensures r.Fail? ==> r.message == FileTooLarge
  {
    if size > MaxLicenseBytes then Fail(FileTooLarge) else Pass
  }

  lemma SizeBoundary()
    ensures CheckSize(5_242_880) == Pass
    ensures CheckSize(5_242_881) == Fail(FileTooLarge)
  {
  }

  /**
   * `name.split('.').pop()`: the text after the last dot, with no dot in it,
   * or the whole name when it has no dot.
   */
  function Extension(name: string): (r: string)
    ensures '.' !in r
    ensures |r| <= |name| && r == name[|name| - |r|..]
    ensures r == name <==> '.' !in name
    ensures |r| < |name| ==> name[|name| - |r| - 1] == '.'
  {
    LastSegmentIsSuffix(name, '.');
    LastSegment(name, '.')
  }

  /**
   * `licenses/${userId}-${Math.random()}.${fileExt}`, where `random` is the
   * text the random number renders as.
   */
  function StoragePath(userId: string, random: string, fileName: string): (r: string)
    ensures "licenses/" + userId + "-" <= r
  {
    "licenses/" + userId + "-" + random + "." + Extension(fileName)
  }

  /** The stored file keeps the uploaded file's extension. */
  lemma StoragePathKeepsExtension(userId: string, random: string, fileName: string)
    ensures Extension(StoragePath(userId, random, fileName)) == Extension(fileName)
  {
    LastSegmentAfterSeparator("licenses/" + userId + "-" + random, Extension(fileName), '.');
  }

  /** A name without a dot is its own extension, so the path ends in `.` and the whole name. */
  lemma StoragePathOfDotlessName(userId: string, random: string, fileName: string)
    requires '.' !in fileName
    ensures StoragePath(userId, random, fileName) == "licenses/" + userId + "-" + random + "." + fileName
  {
  }

  /** The editable fields of the profile form, each the text of its input. */
  datatype ProfileForm = ProfileForm(
    firstName: string,
    lastName: string,
    phoneNumber: string,
    houseNumber: string,
    streetName: string,
    barangay: string,
    city: string,
    province: string,
    postalCode: string,
    birthday: string)

  /** The initial `formData`: each column of the profile, with null (or no profile) shown as "". */
  function InitialForm(p: Option<Profile>): (f: ProfileForm)
    ensures p.None? ==> f == ProfileForm("", "", "", "", "", "", "", "", "", "")
    ensures p.Some? ==> var q := p.value;
      && f.firstName == OrEmpty(q.firstName) && f.lastName == OrEmpty(q.lastName)
      && f.phoneNumber == OrEmpty(q.phoneNumber) && f.houseNumber == OrEmpty(q.houseNumber)
      && f.streetName == OrEmpty(q.streetName) && f.barangay == OrEmpty(q.barangay)
      && f.city == OrEmpty(q.city) && f.province == OrEmpty(q.province)
      && f.postalCode == OrEmpty(q.postalCode) && f.birthday == OrEmpty(q.birthday)
  {
    match p
    case None => ProfileForm("", "", "", "", "", "", "", "", "", "")
    case Some(q) => ProfileForm(
      OrEmpty(q.firstName), OrEmpty(q.lastName), OrEmpty(q.phoneNumber), OrEmpty(q.houseNumber),
      OrEmpty(q.streetName), OrEmpty(q.barangay), OrEmpty(q.city), OrEmpty(q.province),
      OrEmpty(q.postalCode), OrEmpty(q.birthday))
  }

  /** `update({ ...formData, updated_at })`: every field is written as typed, an empty one as "". */
  function SavedProfile(q: Profile, f: ProfileForm, updatedAt: string): (r: Profile)
    ensures r.id == q.id && r.email == q.email && r.role == q.role && r.licenseUrl == q.licenseUrl
    ensures r.createdAt == q.createdAt && r.updatedAt == updatedAt
    ensures && r.firstName == Some(f.firstName) && r.lastName == Some(f.lastName)
      && r.phoneNumber == Some(f.phoneNumber) && r.houseNumber == Some(f.houseNumber)
      && r.streetName == Some(f.streetName) && r.barangay == Some(f.barangay)
      && r.city == Some(f.city) && r.province == Some(f.province)
      && r.postalCode == Some(f.postalCode) && r.birthday == Some(f.birthday)
  {
    q.(firstName := Some(f.firstName), lastName := Some(f.lastName), phoneNumber := Some(f.phoneNumber),
       houseNumber := Some(f.houseNumber), streetName := Some(f.streetName), barangay := Some(f.barangay),
       city := Some(f.city), province := Some(f.province), postalCode := Some(f.postalCode),
       birthday := Some(f.birthday), updatedAt := updatedAt)
  }

  /** Saving the form and loading the page again shows exactly what was saved. */
  lemma SaveThenReload(q: Profile, f: ProfileForm, updatedAt: string)
    ensures InitialForm(Some(SavedProfile(q, f, updatedAt))) == f
  {
  }

  /** The profile row a sign-up creates, before any license is uploaded. */
  function SignupRow(r: Signup.NewProfile, createdAt: string): Profile {
    Profile(r.id, r.firstName, r.lastName, r.email, r.phoneNumber, r.houseNumber, r.streetName,
            r.barangay, r.city, r.province, r.postalCode, r.birthday, None, r.role, createdAt, createdAt)
  }

  /**
   * After sign-up, the profile page shows every address and name field as it
   * was typed at sign-up, and the birthday as the assembled date (or "").
   */
  lemma SignupFieldsReachProfileForm(userId: string, authEmail: Option<string>, s: Signup.SignupForm, createdAt: string)
    ensures var f := InitialForm(Some(SignupRow(Signup.ProfileData(userId, authEmail, s), createdAt)));
      && f.firstName == s.firstName && f.lastName == s.lastName && f.phoneNumber == s.phone
      && f.houseNumber == s.houseNumber && f.streetName == s.streetName && f.barangay == s.barangay
      && f.city == s.city && f.province == s.province && f.postalCode == s.postalCode
      && f.birthday == OrEmpty(Signup.Birthday(s.year, s.month, s.day))
  {
  }

  /** The backend's answer to a profile update: the updated row, or an error message. */
  datatype UpdateReply = Updated(row: Profile) | UpdateFailed(message: string)

  /** The profile page's state: the profile shown, the busy flags and the two banners. */
  class ProfilePage {
    const userId: string
    var profile: Option<Profile>
    var loading: bool
    var uploading: bool
    var error: Option<string>
    var success: Option<string>

    constructor (initial: Option<Profile>, userId: string)
      ensures this.userId == userId && profile == initial
      ensures !loading && !uploading && error == None && success == None
    {
      this.userId := userId;
      profile := initial;
      loading := false;
      uploading := false;
      error := None;
      success := None;
    }

    /** The name in the page header. */
    function DisplayName(): (r: string)
      reads this
      ensures r == UserName(profile)
      ensures r != ""
    {
      UserName(profile)
    }

    /**
     * `handleSubmit` once the update has answered: both banners are cleared
     * first; the returned row replaces the shown profile and the success
     * banner appears, or the error banner shows the failure.
     */
    method Submit(reply: UpdateReply)
      modifies this
      ensures !loading && uploading == old(uploading)
      ensures reply.Updated? ==>
        profile == Some(reply.row) && success == Some("Profile updated successfully!") && error == None
      ensures reply.UpdateFailed? ==>
        profile == old(profile) && success == None && error == Some(OrElse(reply.message, "An error occurred"))
    {
      loading := true;
      error := None;
      success := None;
      match reply {
        case Updated(row) =>
          profile := Some(row);
          success := Some("Profile updated successfully!");
        case UpdateFailed(message) =>
          error := Some(OrElse(message, "An error occurred"));
      }
      loading := false;
    }

    /**
     * `handleFileUpload` for the chosen file (if any), where `random` is the
     * rendered random number and `failure` the message of the storage or
     * profile call that failed, if one did. Nothing happens without a file; a
     * file over the limit only shows the size error; otherwise the path the
     * file is uploaded to is returned and the outcome shown.
     */
    method HandleFileUpload(file: Option<FileInfo>, random: string, failure: Option<string>)
      returns (path: Option<string>)
      modifies this
      ensures profile == old(profile) && loading == old(loading)
      ensures file.None? ==>
        path.None? && uploading == old(uploading) && error == old(error) && success == old(success)
      ensures file.Some? && CheckSize(file.value.size).Fail? ==>
        path.None? && uploading == old(uploading) && error == Some(FileTooLarge) && success == old(success)
      ensures file.Some? && CheckSize(file.value.size).Pass? ==>
        && path == Some(StoragePath(userId, random, file.value.name))
        && !uploading
        && (failure.None? ==> error == None && success == Some("License uploaded successfully!"))
        && (failure.Some? ==> error == Some(OrElse(failure.value, "Failed to upload license")) && success == old(success))
    {
      path := None;
      if file.None? {
        return;
      }
      var check := CheckSize(file.value.size);
      if check.Fail? {
        error := Some(check.message);
        return;
      }
      uploading := true;
      error := None;
      path := Some(StoragePath(userId, random, file.value.name));
      if failure.Some? {
        error := Some(OrElse(failure.value, "Failed to upload license"));
      } else {
        success := Some("License uploaded successfully!");
      }
      uploading := false;
    }
  }
}
