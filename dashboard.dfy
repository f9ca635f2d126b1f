/**
 * The dashboard's recent-activity list: how long ago each entry happened, who
 * made it, and what it says.
 */
module Dashboard {
  import opened Wrappers
  import opened Strings
  import opened Database
  import opened Names

  const SecondsPerMinute: int := 60
  const SecondsPerHour: int := 3600
  const SecondsPerDay: int := 86400

  /**
   * `Math.floor((now.getTime() - date.getTime()) / 1000)`: the whole seconds
   * elapsed, rounded down (so towards minus infinity for a date in the future).
   */
  function ElapsedSeconds(now: Instant, date: Instant): (d: int)
    ensures d * 1000 <= now - date < d * 1000 + 1000
  {
    (now - date) / 1000
  }

  datatype TimeUnit = Sec | Min | Hour | Day

  /** A count of whole units. */
  datatype Ago = Ago(count: int, unit: TimeUnit)

  /**
   * The unit `formatTimeAgo` picks for a difference of `d` seconds and the
   * whole number of those units in `d`: seconds below a minute (a negative
   * difference included), then minutes, hours below a day, and days.
   */
  function AgoOf(d: int): (a: Ago)
    ensures a.unit == Sec <==> d < SecondsPerMinute
    ensures a.unit == Min <==> SecondsPerMinute <= d < SecondsPerHour
    ensures a.unit == Hour <==> SecondsPerHour <= d < SecondsPerDay
    ensures a.unit == Day <==> SecondsPerDay <= d
    ensures a.unit == Sec ==> a.count == d
    ensures a.unit == Min ==> 1 <= a.count < 60 && a.count * SecondsPerMinute <= d < (a.count + 1) * SecondsPerMinute
    ensures a.unit == Hour ==> 1 <= a.count < 24 && a.count * SecondsPerHour <= d < (a.count + 1) * SecondsPerHour
    ensures a.unit == Day ==> 1 <= a.count && a.count * SecondsPerDay <= d < (a.count + 1) * SecondsPerDay
  {
    if d < SecondsPerMinute then Ago(d, Sec)
    else if d < SecondsPerHour then Ago(d / SecondsPerMinute, Min)
    else if d < SecondsPerDay then Ago(d / SecondsPerHour, Hour)
    else Ago(d / SecondsPerDay, Day)
  }

  /** The unit's word: "sec" and "min" never take a plural, "hour" and "day" take "s" above one. */
  function UnitWord(a: Ago): (r: string)
    ensures |r| >= 3
    ensures r[0] == match a.unit case Sec => 's' case Min => 'm' case Hour => 'h' case Day => 'd'
    ensures r[|r| - 1] == 's' <==> (a.unit == Hour || a.unit == Day) && a.count > 1
  {
    match a.unit
    case Sec => "sec"
    case Min => "min"
    case Hour => "hour" + (if a.count > 1 then "s" else "")
    case Day => "day" + (if a.count > 1 then "s" else "")
  }

  /** `${count} ${word} ago`: the count, a space, the unit's word and " ago". */
  function Render(a: Ago): (r: string)
    ensures IntToString(a.count) + " " <= r
    ensures |r| >= 4 && r[|r| - 4..] == " ago"
  {
    IntToString(a.count) + " " + UnitWord(a) + " ago"
  }

  /**
   * `formatTimeAgo(created_at)` evaluated at the instant `now`: the whole
   * number of units elapsed, then the unit and " ago".
   */
  function FormatTimeAgo(now: Instant, date: Instant): (r: string)
    ensures IntToString(AgoOf(ElapsedSeconds(now, date)).count) + " " <= r
    ensures |r| >= 4 && r[|r| - 4..] == " ago"
  {
    Render(AgoOf(ElapsedSeconds(now, date)))
  }

  /** The four branches, each with the count rounded down to whole units. */
  lemma FormatTimeAgoCases(now: Instant, date: Instant)
    ensures var d := ElapsedSeconds(now, date); var r := FormatTimeAgo(now, date);
      && (d < 60 ==> r == IntToString(d) + " sec ago")
      && (60 <= d < 3600 ==> r == IntToString(d / 60) + " min ago")
      && (3600 <= d < 86400 ==> r == IntToString(d / 3600) + (if d / 3600 > 1 then " hours ago" else " hour ago"))
      && (86400 <= d ==> r == IntToString(d / 86400) + (if d / 86400 > 1 then " days ago" else " day ago"))
  {
    RenderCases(ElapsedSeconds(now, date));
  }

  lemma RenderCases(d: int)
    ensures var r := Render(AgoOf(d));
      && (d < 60 ==> r == IntToString(d) + " sec ago")
      && (60 <= d < 3600 ==> r == IntToString(d / 60) + " min ago")
      && (3600 <= d < 86400 ==> r == IntToString(d / 3600) + (if d / 3600 > 1 then " hours ago" else " hour ago"))
      && (86400 <= d ==> r == IntToString(d / 86400) + (if d / 86400 > 1 then " days ago" else " day ago"))
  {
    var a := AgoOf(d);
    RenderSuffix(a);
    if d < 60 {
      assert a == Ago(d, Sec);
    } else if d < 3600 {
      assert a == Ago(d / 60, Min);
    } else if d < 86400 {
      assert a == Ago(d / 3600, Hour);
    } else {
      assert a == Ago(d / 86400, Day);
    }
  }

  /** The rendered text for each unit. */
  lemma RenderSuffix(a: Ago)
    ensures var n := IntToString(a.count);
      && (a.unit == Sec ==> Render(a) == n + " sec ago")
      && (a.unit == Min ==> Render(a) == n + " min ago")
      && (a.unit == Hour ==> Render(a) == n + (if a.count > 1 then " hours ago" else " hour ago"))
      && (a.unit == Day ==> Render(a) == n + (if a.count > 1 then " days ago" else " day ago"))
  {
    var n := IntToString(a.count);
    match a.unit
    case Sec => RenderedText(a, n, " sec ago");
    case Min => RenderedText(a, n, " min ago");
    case Hour => RenderedText(a, n, if a.count > 1 then " hours ago" else " hour ago");
    case Day => RenderedText(a, n, if a.count > 1 then " days ago" else " day ago");
  }

  /** A date in the future renders as a negative number of seconds. */
  lemma FutureDateShowsNegativeSeconds(now: Instant, date: Instant)
    requires date > now
    ensures ElapsedSeconds(now, date) < 0
    ensures FormatTimeAgo(now, date) == "-" + NatToString(-ElapsedSeconds(now, date)) + " sec ago"
  {
    var d := ElapsedSeconds(now, date);
    assert AgoOf(d) == Ago(d, Sec);
    RenderedText(Ago(d, Sec), "-" + NatToString(-d), " sec ago");
  }

  /** The plural "s" appears exactly when the count of hours or days is more than one. */
  lemma PluralOnlyAboveOne(a: Ago)
    requires a.unit == Hour || a.unit == Day
    ensures var w := UnitWord(a); w[|w| - 1] == 's' <==> a.count > 1
  {
  }

  /** A rendered integer is a minus sign and digits, so it has no space in it. */
  lemma NoSpaceInNumber(i: int)
    ensures ' ' !in IntToString(i)
  {
    var s := IntToString(i);
    if i < 0 {
      forall k | 1 <= k < |s| ensures s[k] != ' ' {
        assert s[k] == NatToString(-i)[k - 1];
      }
    }
  }

  /** The rendered text starts with the count up to its first space, and the rest is the word and " ago". */
  lemma RenderParts(a: Ago)
    ensures Split(Render(a), ' ')[0] == IntToString(a.count)
    ensures Render(a)[|IntToString(a.count)| + 1..] == UnitWord(a) + " ago"
  {
    var n, t := IntToString(a.count), UnitWord(a) + " ago";
    assert Render(a) == n + [' '] + t;
    NoSpaceInNumber(a.count);
    SplitAtFirst(n, t, ' ');
  }

  /** The four unit words start with different letters, so the word names the unit. */
  lemma UnitWordInjective(a: Ago, b: Ago)
    requires UnitWord(a) == UnitWord(b)
    ensures a.unit == b.unit
  {
    var w := UnitWord(a);
    assert w[0] == UnitWord(b)[0];
  }

  /** The rendered text determines both the count and the unit. */
  lemma RenderInjective(a: Ago, b: Ago)
    requires Render(a) == Render(b)
    ensures a == b
  {
    RenderParts(a);
    RenderParts(b);
    IntToStringInjective(a.count, b.count);
    var ta, tb := UnitWord(a) + " ago", UnitWord(b) + " ago";
    assert ta == tb;
    assert UnitWord(a) == ta[..|ta| - 4];
    assert UnitWord(b) == tb[..|tb| - 4];
    UnitWordInjective(a, b);
  }

  /** The branch boundaries: 59 seconds are still seconds, 60 seconds are one minute. */
  lemma MinuteBoundary(date: Instant)
    ensures FormatTimeAgo(date + 59_000, date) == "59 sec ago"
    ensures FormatTimeAgo(date + 60_000, date) == "1 min ago"
  {
    FiftyNineSeconds();
    TextAfter(date, 59, Ago(59, Sec), "59 sec ago");
    OneMinute();
    TextAfter(date, 60, Ago(1, Min), "1 min ago");
  }

  /** One hour is singular, two hours plural, and a whole day switches to days. */
  lemma HourAndDayBoundaries(date: Instant)
    ensures FormatTimeAgo(date + 3_600_000, date) == "1 hour ago"
    ensures FormatTimeAgo(date + 7_200_000, date) == "2 hours ago"
    ensures FormatTimeAgo(date + 86_400_000, date) == "1 day ago"
  {
    OneHour();
    TextAfter(date, 3600, Ago(1, Hour), "1 hour ago");
    TwoHours();
    TextAfter(date, 7200, Ago(2, Hour), "2 hours ago");
    OneDay();
    TextAfter(date, 86400, Ago(1, Day), "1 day ago");
  }

  /** `d` whole seconds after `date`, the text is that of `AgoOf(d)`. */
  lemma TextAfter(date: Instant, d: int, a: Ago, text: string)
    requires AgoOf(d) == a && Render(a) == text
    ensures FormatTimeAgo(date + d * 1000, date) == text
  {
    assert ElapsedSeconds(date + d * 1000, date) == d;
  }

  /** The five texts at the boundaries, each worked out on its own. */
  lemma FiftyNineSeconds() ensures Render(Ago(59, Sec)) == "59 sec ago" {
    RenderedText(Ago(59, Sec), "59", " sec ago");
  }

  lemma OneMinute() ensures Render(Ago(1, Min)) == "1 min ago" {
    RenderedText(Ago(1, Min), "1", " min ago");
  }

  lemma OneHour() ensures Render(Ago(1, Hour)) == "1 hour ago" {
    RenderedText(Ago(1, Hour), "1", " hour ago");
  }

  lemma TwoHours() ensures Render(Ago(2, Hour)) == "2 hours ago" {
    RenderedText(Ago(2, Hour), "2", " hours ago");
  }

  lemma OneDay() ensures Render(Ago(1, Day)) == "1 day ago" {
    RenderedText(Ago(1, Day), "1", " day ago");
  }

  /** The text for a count whose digits are `n`, with the unit's word and " ago" being `tail`. */
  lemma RenderedText(a: Ago, n: string, tail: string)
    requires IntToString(a.count) == n
    requires tail == " " + UnitWord(a) + " ago"
    ensures Render(a) == n + tail
  {
    assert Render(a) == n + (" " + UnitWord(a) + " ago");
  }

  /**
   * The author shown for an entry: "System" when no profile is joined, else the
   * trimmed full name, or "Unknown" when that is empty.
   */
  function ActivityAuthor(log: ActivityLog): (r: string)
    ensures r != ""
    ensures log.profiles.None? ==> r == "System"
    ensures log.profiles.Some? && FullName(log.profiles.value) != "" ==> r == FullName(log.profiles.value)
    ensures log.profiles.Some? && FullName(log.profiles.value) == "" ==> r == "Unknown"
  {
    match log.profiles
    case None => "System"
    case Some(n) => OrElse(FullName(n), "Unknown")
  }

  /** An author whose name parts are all missing or blank shows as "Unknown", never as "System". */
  lemma BlankAuthorIsUnknown(log: ActivityLog)
    requires log.profiles.Some?
    requires AllSpace(OrEmpty(log.profiles.value.firstName)) && AllSpace(OrEmpty(log.profiles.value.lastName))
    ensures ActivityAuthor(log) == "Unknown"
  {
    FullNameEmptyIff(log.profiles.value);
  }

  /** An author with a non-blank first name shows that name, not a fallback. */
  lemma NamedAuthorShowsName(log: ActivityLog)
    requires log.profiles.Some? && !AllSpace(OrEmpty(log.profiles.value.firstName))
    ensures ActivityAuthor(log) == FullName(log.profiles.value)
  {
    FullNameEmptyIff(log.profiles.value);
  }

  /** `description || action`: a missing or empty description shows the action instead. */
  function ActivityDescription(log: ActivityLog): (r: string)
    ensures log.description.Some? && log.description.value != "" ==> r == log.description.value
    ensures log.description.None? || log.description == Some("") ==> r == log.action
  {
    OrElse(OrEmpty(log.description), log.action)
  }

  /** The second line of an entry: `By ${userName} - ${formatTimeAgo(created_at)}`. */
  function ActivityByline(log: ActivityLog, now: Instant): (r: string)
    ensures "By " + ActivityAuthor(log) + " - " <= r
    ensures r[|"By " + ActivityAuthor(log) + " - "|..] == FormatTimeAgo(now, log.createdAt)
  {
    "By " + ActivityAuthor(log) + " - " + FormatTimeAgo(now, log.createdAt)
  }
}
