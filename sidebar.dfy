/**
 * The sidebar's user box: the display name and the initials shown in its
 * avatar, derived from the signed-in user's `first_name, last_name`.
 */
module Sidebar {
  import opened Wrappers
  import opened Strings
  import opened Database
  import opened Names

  /** `part?.[0] || ""`: the first character of a name part, or nothing when it is missing or empty. */
  function FirstChar(part: Option<string>): (r: string)
    ensures |r| <= 1
    ensures r == [] <==> part.None? || part.value == ""
    ensures r != [] ==> r[0] == part.value[0]
  {
    if part.Some? && part.value != "" then [part.value[0]] else ""
  }

  /** The first letters of both parts, upper-cased, or "U" when neither part has one. */
  function Initials(n: NameParts): (r: string)
    ensures 1 <= |r| <= 2
    ensures forall k :: 0 <= k < |r| ==> !IsAsciiLower(r[k])
    ensures var c := FirstChar(n.firstName) + FirstChar(n.lastName);
      && (c != "" ==> r == ToUpper(c))
      && (c == "" ==> r == "U")
  {
    ToUpper(OrElse(FirstChar(n.firstName) + FirstChar(n.lastName), "U"))
  }

  /** The two labels of the user box. */
  datatype Labels = Labels(name: string, initials: string)

  /** The labels before a profile has been loaded, and when there is none. */
  const DefaultLabels: Labels := Labels("User", "U")

  /**
   * What `fetchProfile` leaves in the user box: the defaults when there is no
   * signed-in user with a profile, else the full name (or "User") and the initials.
   */
  function LabelsFor(profile: Option<NameParts>): (r: Labels)
    ensures profile.None? ==> r == DefaultLabels
    ensures profile.Some? ==> r.name == OrElse(FullName(profile.value), "User") && r.initials == Initials(profile.value)
    ensures r.name != "" && 1 <= |r.initials| <= 2
  {
    match profile
    case None => DefaultLabels
    case Some(n) => Labels(OrElse(FullName(n), "User"), Initials(n))
  }

  /** The sidebar shows the same name as the pages do for the same profile. */
  lemma NameAgreesWithPages(p: Option<Profile>)
    ensures LabelsFor(if p.Some? then Some(NamesOf(p.value)) else None).name == UserName(p)
  {
  }

  /** Both parts present: the upper-cased first letter of each, in order. */
  lemma InitialsOfBothParts(first: string, last: string)
    requires first != "" && last != ""
    ensures Initials(NameParts(Some(first), Some(last))) == [UpperChar(first[0]), UpperChar(last[0])]
  {
    var s := [first[0], last[0]];
    assert FirstChar(Some(first)) + FirstChar(Some(last)) == s;
    assert ToUpper(s)[0] == UpperChar(s[0]);
    assert ToUpper(s)[1..] == ToUpper(s[1..]);
  }

  /** A missing or empty part is skipped: only the other part's letter is shown. */
  lemma InitialsSkipMissingPart(part: string)
    requires part != ""
    ensures Initials(NameParts(Some(part), None)) == [UpperChar(part[0])]
    ensures Initials(NameParts(Some(part), Some(""))) == [UpperChar(part[0])]
    ensures Initials(NameParts(None, Some(part))) == [UpperChar(part[0])]
    ensures Initials(NameParts(Some(""), Some(part))) == [UpperChar(part[0])]
  {
  }

  /** No letters at all give "U". */
  lemma InitialsFallback(n: NameParts)
    requires n.firstName.None? || n.firstName == Some("")
    requires n.lastName.None? || n.lastName == Some("")
    ensures Initials(n) == "U"
  {
  }

  /**
   * A first name of one space and no last name: the trimmed name is empty, so
   * the box says "User", but the initial is that space, not "U".
   */
  lemma BlankFirstNameGivesBlankInitial()
    ensures LabelsFor(Some(NameParts(Some(" "), None))) == Labels("User", " ")
  {
    assert Trim(" " + " " + "") == "";
    assert ToUpper(" ") == " ";
  }
}
