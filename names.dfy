/**
 * The display name every page derives from a profile:
 * `${first_name || ""} ${last_name || ""}`.trim(), with "User" when that is
 * empty or there is no profile.
 */
module Names {
  import opened Wrappers
  import opened Strings
  import opened Database

  /** `${first || ""} ${last || ""}`.trim(): a name with no white space at either end. */
  function FullName(n: NameParts): (r: string)
    ensures r != [] ==> !IsJsSpace(r[0]) && !IsJsSpace(r[|r| - 1])
  {
    Trim(OrEmpty(n.firstName) + " " + OrEmpty(n.lastName))
  }

  /**
   * `userName`: the full name of the signed-in user's profile, or "User" when
   * there is no profile or its name is blank. Never empty.
   */
  function UserName(profile: Option<Profile>): (r: string)
    ensures r != ""
    ensures profile.None? ==> r == "User"
    ensures profile.Some? ==> r == OrElse(FullName(NamesOf(profile.value)), "User")
  {
    match profile
    case None => "User"
    case Some(p) => OrElse(FullName(NamesOf(p)), "User")
  }

  /** The full name is empty exactly when both parts are missing or blank. */
  lemma FullNameEmptyIff(n: NameParts)
    ensures FullName(n) == "" <==> AllSpace(OrEmpty(n.firstName)) && AllSpace(OrEmpty(n.lastName))
  {
    var f, l := OrEmpty(n.firstName), OrEmpty(n.lastName);
    var s := f + " " + l;
    forall k | 0 <= k < |f| ensures s[k] == f[k] { }
    forall k | 0 <= k < |l| ensures s[|f| + 1 + k] == l[k] { }
    if AllSpace(f) && AllSpace(l) {
      AllSpaceConcat(f, " ");
      AllSpaceConcat(f + " ", l);
    } else if !AllSpace(f) {
      var k :| 0 <= k < |f| && !IsJsSpace(f[k]);
      assert !IsJsSpace(s[k]);
    } else {
      var k :| 0 <= k < |l| && !IsJsSpace(l[k]);
      assert !IsJsSpace(s[|f| + 1 + k]);
    }
  }

  /** Two parts without white space at their ends are joined by exactly one space. */
  lemma FullNameOfTidyParts(first: string, last: string)
    requires first != [] && !IsJsSpace(first[0]) && !IsJsSpace(first[|first| - 1])
    requires last != [] && !IsJsSpace(last[0]) && !IsJsSpace(last[|last| - 1])
    ensures FullName(NameParts(Some(first), Some(last))) == first + " " + last
  {
    var s := first + " " + last;
    assert s[0] == first[0] && s[|s| - 1] == last[|last| - 1];
    assert SkipSpace(s, 0) == 0;
    assert SkipSpaceBack(s, 0, |s|) == |s|;
  }

  /** A present part with only one name gives that name without the separating space. */
  lemma FullNameOfFirstOnly(first: string)
    requires first != [] && !IsJsSpace(first[0]) && !IsJsSpace(first[|first| - 1])
    ensures FullName(NameParts(Some(first), None)) == first
  {
    var s := first + " " + "";
    assert s[0] == first[0] && s[|s| - 2] == first[|first| - 1];
    assert SkipSpace(s, 0) == 0;
    assert SkipSpaceBack(s, 0, |s|) == |s| - 1;
    assert s[..|s| - 1] == first;
  }
}
