/**
 * The JavaScript string operations the application relies on, over `seq<char>`:
 * `trim`, ASCII case mapping, `includes`, `split(sep)` with `pop`, `padStart`,
 * the `s || fallback` idiom for possibly-empty or null strings, and the decimal
 * rendering of an integer inside a template literal.
 */
module Strings {
  import opened Wrappers

  // ---------------------------------------------------------------------------
  // trim
  // ---------------------------------------------------------------------------

  /** The ECMAScript WhiteSpace and LineTerminator code points: what `String.prototype.trim` removes. */
  predicate IsJsSpace(c: char) {
    var n := c as int;
    n == 0x09 || n == 0x0A || n == 0x0B || n == 0x0C || n == 0x0D || n == 0x20
    || n == 0xA0 || n == 0x1680 || (0x2000 <= n <= 0x200A) || n == 0x2028 || n == 0x2029
    || n == 0x202F || n == 0x205F || n == 0x3000 || n == 0xFEFF
  }

  predicate AllSpace(s: string) {
    forall k :: 0 <= k < |s| ==> IsJsSpace(s[k])
  }

  /** The index of the first character at or after `i` that is not white space, or `|s|` when there is none. */
  function SkipSpace(s: string, i: nat): (r: nat)
    requires i <= |s|
    ensures i <= r <= |s|
    ensures forall k :: i <= k < r ==> IsJsSpace(s[k])
    ensures r < |s| ==> !IsJsSpace(s[r])
    decreases |s| - i
  {
    if i < |s| && IsJsSpace(s[i]) then SkipSpace(s, i + 1) else i
  }

  /**
   * The index just past the last character before `j` that is not white
   * space, scanning back no further than `lo`.
   */
  function SkipSpaceBack(s: string, lo: nat, j: nat): (r: nat)
    requires lo <= j <= |s|
    ensures lo <= r <= j
    ensures forall k :: r <= k < j ==> IsJsSpace(s[k])
    ensures r > lo ==> !IsJsSpace(s[r - 1])
    decreases j
  {
    if j > lo && IsJsSpace(s[j - 1]) then SkipSpaceBack(s, lo, j - 1) else j
  }

  /**
   * `s.trim()`: the slice of `s` left once white space is dropped from both
   * ends. What is dropped in front (the first `SkipSpace(s, 0)` characters)
   * and behind is all white space, the slice has none at either end, and it is
   * empty exactly when `s` is all white space.
   */
  function Trim(s: string): (r: string)
    ensures var i := SkipSpace(s, 0);
      && i + |r| <= |s| && r == s[i..i + |r|]
      && (forall k :: 0 <= k < i ==> IsJsSpace(s[k]))
      && (forall k :: i + |r| <= k < |s| ==> IsJsSpace(s[k]))
    ensures r != [] ==> !IsJsSpace(r[0]) && !IsJsSpace(r[|r| - 1])
    ensures r == [] <==> AllSpace(s)
  {
    var i := SkipSpace(s, 0);
    var j := SkipSpaceBack(s, i, |s|);
    assert i < |s| ==> !IsJsSpace(s[i]);
    s[i..j]
  }

  lemma AllSpaceConcat(a: string, b: string)
    requires AllSpace(a) && AllSpace(b)
    ensures AllSpace(a + b)
  {
    forall k | 0 <= k < |a + b| ensures IsJsSpace((a + b)[k]) {
      if k >= |a| {
        assert (a + b)[k] == b[k - |a|];
      }
    }
  }

  /** Trimming twice is trimming once. */
  lemma TrimIdempotent(s: string)
    ensures Trim(Trim(s)) == Trim(s)
  {
    var r := Trim(s);
    assert SkipSpace(r, 0) == 0;
    assert SkipSpaceBack(r, 0, |r|) == |r|;
  }

  // ---------------------------------------------------------------------------
  // case mapping (ASCII letters only)
  // ---------------------------------------------------------------------------

  predicate IsAsciiUpper(c: char) { 'A' <= c <= 'Z' }
  predicate IsAsciiLower(c: char) { 'a' <= c <= 'z' }

  function LowerChar(c: char): char {
    if IsAsciiUpper(c) then (c as int + 32) as char else c
  }

  function UpperChar(c: char): char {
    if IsAsciiLower(c) then (c as int - 32) as char else c
  }

  /** `s.toLowerCase()` on ASCII letters: same length, no upper-case letter left, only letters change. */
  function ToLower(s: string): (r: string)
    ensures |r| == |s|
    ensures forall i :: 0 <= i < |r| ==> !IsAsciiUpper(r[i])
    ensures forall i :: 0 <= i < |r| ==> r[i] == s[i] || (IsAsciiUpper(s[i]) && r[i] as int == s[i] as int + 32)
    decreases |s|
  {
    if s == [] then [] else [LowerChar(s[0])] + ToLower(s[1..])
  }

  /** `s.toUpperCase()` on ASCII letters: same length, no lower-case letter left, only letters change. */
  function ToUpper(s: string): (r: string)
    ensures |r| == |s|
    ensures forall i :: 0 <= i < |r| ==> !IsAsciiLower(r[i])
    ensures forall i :: 0 <= i < |r| ==> r[i] == s[i] || (IsAsciiLower(s[i]) && r[i] as int + 32 == s[i] as int)
    decreases |s|
  {
    if s == [] then [] else [UpperChar(s[0])] + ToUpper(s[1..])
  }

  /** Lower-casing forgets the case a string was written in. */
  lemma {:induction false} LowerOfUpper(s: string)
    ensures ToLower(ToUpper(s)) == ToLower(s)
    decreases |s|
  {
    if s != [] {
      LowerOfUpper(s[1..]);
      assert ToUpper(s)[1..] == ToUpper(s[1..]);
    }
  }

  // ---------------------------------------------------------------------------
  // includes
  // ---------------------------------------------------------------------------

  /** `needle` occurs in `hay` starting at index `i`. */
  predicate OccursAt(hay: string, needle: string, i: int) {
    0 <= i && i + |needle| <= |hay| && hay[i..i + |needle|] == needle
  }

  /** `hay.includes(needle)`, scanning from the left: true exactly when `needle` occurs somewhere in `hay`. */
  function Contains(hay: string, needle: string): (r: bool)
    ensures r <==> exists i :: OccursAt(hay, needle, i)
    decreases |hay|
  {
    if |needle| > |hay| then false
    else if hay[..|needle|] == needle then
      assert OccursAt(hay, needle, 0);
      true
    else
      var r := Contains(hay[1..], needle);
      OccursShift(hay, needle);
      r
  }

  /** Past a mismatch at the front, `needle` occurs in `hay` exactly when it occurs in `hay[1..]`. */
  lemma OccursShift(hay: string, needle: string)
    requires |needle| <= |hay| && hay[..|needle|] != needle
    ensures (exists i :: OccursAt(hay[1..], needle, i)) <==> (exists i :: OccursAt(hay, needle, i))
  {
    forall i | OccursAt(hay[1..], needle, i) ensures OccursAt(hay, needle, i + 1) {
      assert hay[i + 1..i + 1 + |needle|] == hay[1..][i..i + |needle|];
    }
    forall i | OccursAt(hay, needle, i) ensures OccursAt(hay[1..], needle, i - 1) {
      assert hay[..|needle|] == hay[0..|needle|];
      assert i != 0;
      assert hay[1..][i - 1..i - 1 + |needle|] == hay[i..i + |needle|];
    }
  }

  /** Every string includes the empty string. */
  lemma ContainsEmpty(hay: string)
    ensures Contains(hay, "")
  {
  }

  // ---------------------------------------------------------------------------
  // `s || fallback` on strings that may be empty or null
  // ---------------------------------------------------------------------------

  /** `o || ""` for a string that may be null. */
  function OrEmpty(o: Option<string>): (r: string)
    ensures o.Some? ==> r == o.value
    ensures o.None? ==> r == ""
  {
    match o
    case Some(s) => s
    case None => ""
  }

  /** `s || null`: the empty string becomes null, any other string is kept. */
  function EmptyToNull(s: string): (r: Option<string>)
    ensures r.None? <==> s == ""
    ensures r.Some? ==> r.value == s
  {
    if s == "" then None else Some(s)
  }

  /** `s || fallback`: an empty string is replaced by `fallback`. */
  function OrElse(s: string, fallback: string): (r: string)
    ensures s != "" ==> r == s
    ensures s == "" ==> r == fallback
  {
    if s == "" then fallback else s
  }

  /** `EmptyToNull` and `OrEmpty` are inverse to each other, except that a stored empty string reads back as null. */
  lemma NullRoundTrip(s: string, o: Option<string>)
    ensures OrEmpty(EmptyToNull(s)) == s
    ensures o != Some("") ==> EmptyToNull(OrEmpty(o)) == o
  {
  }

  // ---------------------------------------------------------------------------
  // split(sep), join(sep) and pop()
  // ---------------------------------------------------------------------------

  /**
   * `s.split(sep)` for a one-character separator: at least one segment, none
   * containing `sep`, and one segment exactly when `s` has no separator
   * (`JoinSplit` proves that joining the segments gives `s` back).
   */
  function Split(s: string, sep: char): (r: seq<string>)
    ensures |r| >= 1
    ensures forall k :: 0 <= k < |r| ==> sep !in r[k]
    ensures |r| == 1 <==> sep !in s
    decreases |s|
  {
    if |s| == 0 then [""]
    else if s[0] == sep then [""] + Split(s[1..], sep)
    else
      assert s == [s[0]] + s[1..];
      var rest := Split(s[1..], sep);
      [[s[0]] + rest[0]] + rest[1..]
  }

  /** `parts.join(sep)`: the first part, then a separator before each later part. */
  function Join(parts: seq<string>, sep: char): (r: string)
    requires |parts| >= 1
    ensures parts[0] <= r
    ensures |parts| == 1 ==> r == parts[0]
    ensures |parts| > 1 ==> |r| > |parts[0]| && r[|parts[0]|] == sep && r[|parts[0]| + 1..] == Join(parts[1..], sep)
    decreases |parts|
  {
    if |parts| == 1 then parts[0] else parts[0] + [sep] + Join(parts[1..], sep)
  }

  /** Joining three parts puts the separator between each pair. */
  lemma JoinThree(a: string, b: string, c: string, sep: char)
    ensures Join([a, b, c], sep) == a + [sep] + b + [sep] + c
  {
    assert [a, b, c][1..] == [b, c];
    assert [b, c][1..] == [c];
    assert Join([c], sep) == c;
    assert Join([b, c], sep) == b + [sep] + c;
  }

  /** Joining the segments of `s` at the separator gives `s` back. */
  lemma {:induction false} JoinSplit(s: string, sep: char)
    ensures Join(Split(s, sep), sep) == s
    decreases |s|
  {
    if |s| > 0 {
      JoinSplit(s[1..], sep);
      if s[0] == sep {
        JoinSplitAtSeparator(s, sep);
      } else {
        JoinSplitAtOther(s, sep);
      }
    }
  }

  /** The step of `JoinSplit` when `s` starts with the separator: an empty first segment. */
  lemma JoinSplitAtSeparator(s: string, sep: char)
    requires |s| > 0 && s[0] == sep && Join(Split(s[1..], sep), sep) == s[1..]
    ensures Join(Split(s, sep), sep) == s
  {
    var rest := Split(s[1..], sep);
    assert Split(s, sep) == [""] + rest;
    JoinCons("", rest, sep);
    assert "" + [sep] + s[1..] == s;
  }

  /** Joining a part in front of at least one more puts one separator after it. */
  lemma JoinCons(p: string, parts: seq<string>, sep: char)
    requires |parts| >= 1
    ensures Join([p] + parts, sep) == p + [sep] + Join(parts, sep)
  {
    assert ([p] + parts)[1..] == parts;
  }

  /** The step of `JoinSplit` when `s` starts with another character: it goes to the first segment. */
  lemma JoinSplitAtOther(s: string, sep: char)
    requires |s| > 0 && s[0] != sep && Join(Split(s[1..], sep), sep) == s[1..]
    ensures Join(Split(s, sep), sep) == s
  {
    var rest := Split(s[1..], sep);
    assert Split(s, sep) == [[s[0]] + rest[0]] + rest[1..];
    JoinPrepend([s[0]], rest, sep);
    assert [s[0]] + s[1..] == s;
  }

  /** Prepending `x` to the first part prepends it to the joined text. */
  lemma JoinPrepend(x: string, parts: seq<string>, sep: char)
    requires |parts| >= 1
    ensures Join([x + parts[0]] + parts[1..], sep) == x + Join(parts, sep)
  {
    var p := [x + parts[0]] + parts[1..];
    assert p[1..] == parts[1..];
    if |parts| > 1 {
      assert x + (parts[0] + [sep] + Join(parts[1..], sep)) == (x + parts[0]) + [sep] + Join(parts[1..], sep);
    }
  }

  /** A string without the separator is one segment. */
  lemma {:induction false} SplitNoSeparator(s: string, sep: char)
    requires sep !in s
    ensures Split(s, sep) == [s]
    decreases |s|
  {
    if |s| > 0 {
      SplitNoSeparator(s[1..], sep);
      assert [s[0]] + s[1..] == s;
    }
  }

  /** Splitting at the first separator peels off the first segment. */
  lemma {:induction false} SplitAtFirst(a: string, b: string, sep: char)
    requires sep !in a
    ensures Split(a + [sep] + b, sep) == [a] + Split(b, sep)
    decreases |a|
  {
    var s := a + [sep] + b;
    if |a| == 0 {
      assert s[1..] == b;
    } else {
      assert s[1..] == a[1..] + [sep] + b;
      SplitAtFirst(a[1..], b, sep);
      assert [a[0]] + a[1..] == a;
    }
  }

  /** Splitting undoes joining, as long as no part contains the separator. */
  lemma {:induction false} SplitJoin(parts: seq<string>, sep: char)
    requires |parts| >= 1
    requires forall k :: 0 <= k < |parts| ==> sep !in parts[k]
    ensures Split(Join(parts, sep), sep) == parts
    decreases |parts|
  {
    if |parts| == 1 {
      SplitNoSeparator(parts[0], sep);
    } else {
      SplitJoin(parts[1..], sep);
      SplitAtFirst(parts[0], Join(parts[1..], sep), sep);
      assert [parts[0]] + parts[1..] == parts;
    }
  }

  /**
   * `s.split(sep).pop()`: the last segment (never undefined, since `split`
   * yields at least one), so it holds no separator; `LastSegmentIsSuffix`
   * proves it is the text after the last separator.
   */
  function LastSegment(s: string, sep: char): (r: string)
    ensures sep !in r
  {
    var parts := Split(s, sep);
    parts[|parts| - 1]
  }

  /** The last segment is the text after the last separator, or all of `s` when it has none. */
  lemma {:induction false} LastSegmentIsSuffix(s: string, sep: char)
    ensures var r := LastSegment(s, sep);
      && sep !in r
      && |r| <= |s| && r == s[|s| - |r|..]
      && (|r| == |s| <==> sep !in s)
      && (|r| < |s| ==> s[|s| - |r| - 1] == sep)
    decreases |s|
  {
    var parts := Split(s, sep);
    if |s| == 0 {
    } else {
      LastSegmentIsSuffix(s[1..], sep);
      var rest := Split(s[1..], sep);
      if s[0] == sep {
        assert parts[|parts| - 1] == rest[|rest| - 1];
        assert sep in s;
      } else if |rest| == 1 {
        assert parts == [[s[0]] + rest[0]];
        assert [s[0]] + s[1..] == s;
      } else {
        assert parts[|parts| - 1] == rest[|rest| - 1];
        assert s[1..] == s[|s| - |s[1..]|..];
      }
    }
  }

  /** Whatever comes before it, the text after a last separator is the last segment. */
  lemma {:induction false} LastSegmentAfterSeparator(a: string, b: string, sep: char)
    requires sep !in b
    ensures LastSegment(a + [sep] + b, sep) == b
    decreases |a|
  {
    var s := a + [sep] + b;
    if |a| == 0 {
      SplitAtFirst(a, b, sep);
      SplitNoSeparator(b, sep);
    } else {
      assert s[1..] == a[1..] + [sep] + b;
      LastSegmentAfterSeparator(a[1..], b, sep);
      var rest := Split(s[1..], sep);
      assert sep in s[1..] by {
        assert s[1..][|a| - 1] == sep;
      }
      assert |rest| != 1;
    }
  }

  // ---------------------------------------------------------------------------
  // padStart
  // ---------------------------------------------------------------------------

  function Repeat(c: char, n: nat): (r: string)
    ensures |r| == n && forall k :: 0 <= k < n ==> r[k] == c
  {
    seq(n, _ => c)
  }

  /** `s.padStart(width, fill)` with a one-character fill: `s` itself when already `width` long, else left-filled to `width`. */
  function PadStart(s: string, width: nat, fill: char): (r: string)
    ensures |r| == if |s| >= width then |s| else width
    ensures r[|r| - |s|..] == s
    ensures forall k :: 0 <= k < |r| - |s| ==> r[k] == fill
  {
    if |s| >= width then s else Repeat(fill, width - |s|) + s
  }

  // ---------------------------------------------------------------------------
  // integers in template literals
  // ---------------------------------------------------------------------------

  predicate IsDigit(c: char) { '0' <= c <= '9' }

  predicate AllDigits(s: string) {
    forall k :: 0 <= k < |s| ==> IsDigit(s[k])
  }

  function DigitChar(d: int): (c: char)
    requires 0 <= d < 10
    ensures IsDigit(c)
  {
    ('0' as int + d) as char
  }

  function DigitValue(c: char): (d: nat)
    requires IsDigit(c)
    ensures d < 10
  {
    c as int - '0' as int
  }

  /** The decimal digits of `n`, with no leading zero. */
  function NatToString(n: nat): (r: string)
    ensures |r| >= 1 && AllDigits(r)
    ensures r[0] == '0' ==> n == 0
    decreases n
  {
    if n < 10 then [DigitChar(n)] else NatToString(n / 10) + [DigitChar(n % 10)]
  }

  /**
   * `${i}` for an integer `i`: a minus sign before the digits of a negative
   * number, the digits alone otherwise (`IntRoundTrip` reads it back).
   */
  function IntToString(i: int): (r: string)
    ensures |r| >= 1
    ensures r[0] == '-' <==> i < 0
    ensures i < 0 ==> |r| >= 2 && AllDigits(r[1..]) && r[1..] == NatToString(-i)
    ensures i >= 0 ==> AllDigits(r) && r == NatToString(i)
  {
    if i < 0 then "-" + NatToString(-i) else NatToString(i)
  }

  /** Reads a string of decimal digits back as a number (the empty string reads as 0). */
  function ParseNat(s: string): nat
    requires AllDigits(s)
    decreases |s|
  {
    if s == [] then 0 else ParseNat(s[..|s| - 1]) * 10 + DigitValue(s[|s| - 1])
  }

  predicate IsIntLiteral(s: string) {
    if |s| > 0 && s[0] == '-' then |s| > 1 && AllDigits(s[1..]) else |s| > 0 && AllDigits(s)
  }

  /** Reads an optionally negative decimal literal back as an integer. */
  function ParseInt(s: string): int
    requires IsIntLiteral(s)
  {
    if s[0] == '-' then -(ParseNat(s[1..]) as int) else ParseNat(s)
  }

  lemma {:induction false} NatRoundTrip(n: nat)
    ensures ParseNat(NatToString(n)) == n
    decreases n
  {
    if n >= 10 {
      NatRoundTrip(n / 10);
      var s := NatToString(n);
      assert s[..|s| - 1] == NatToString(n / 10);
    }
  }

  /** Rendering an integer loses nothing: it reads back as the same integer. */
  lemma IntRoundTrip(i: int)
    ensures IsIntLiteral(IntToString(i))
    ensures ParseInt(IntToString(i)) == i
  {
    if i < 0 {
      var s := IntToString(i);
      assert s[1..] == NatToString(-i);
      NatRoundTrip(-i);
    } else {
      NatRoundTrip(i);
    }
  }

  /** Different integers render differently. */
  lemma IntToStringInjective(i: int, j: int)
    ensures IntToString(i) == IntToString(j) ==> i == j
  {
    IntRoundTrip(i);
    IntRoundTrip(j);
  }
}
