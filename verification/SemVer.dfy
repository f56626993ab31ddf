// src/base/marina_semver.cc: product versions, read from text and put in order.
module SemVer {
  import opened Options
  import opened NumberPrinter
  import NumberRoundTrip

  // ---- Text, as absl handles it.

  predicate IsSpace(c: char) {
    c as int in {9, 10, 11, 12, 13, 32}
  }

  function StripLeft(s: string): string {
    if s != "" && IsSpace(s[0]) then StripLeft(s[1..]) else s
  }

  function StripRight(s: string): string {
    if s != "" && IsSpace(s[|s| - 1]) then StripRight(s[..|s| - 1]) else s
  }

  // absl::StripAsciiWhitespace.
  function Strip(s: string): string {
    StripRight(StripLeft(s))
  }

  // The first place of a character, or the length if there is none.
  function Find(s: string, c: char): (i: nat)
    ensures i <= |s| && (i < |s| ==> s[i] == c) && forall k :: 0 <= k < i ==> s[k] != c
  {
    if s == "" || s[0] == c then 0 else 1 + Find(s[1..], c)
  }

  // absl::StrSplit with SkipEmpty.
  function Pieces(s: string, c: char): seq<string>
    decreases |s|
  {
    var i := Find(s, c);
    (if i == 0 then [] else [s[..i]]) + (if i == |s| then [] else Pieces(s[i + 1..], c))
  }

  const INT_MAX := 0x7fff_ffff
  const INT_MIN := -0x8000_0000

  // absl::SimpleAtoi for an int: space around, a sign, and digits that do not
  // overflow.
  function Atoi(text: string): Option<int> {
    var s := Strip(text);
    var negative := s != "" && s[0] == '-';
    var digits := if s != "" && (s[0] == '-' || s[0] == '+') then s[1..] else s;
    if digits == "" || !IsDecimal(digits) then None
    else
      var v: int := NumberRoundTrip.ValueOf(digits);
      var n := if negative then -v else v;
      if INT_MIN <= n <= INT_MAX then Some(n) else None
  }

  function ToLower(c: char): char {
    if 'A' <= c <= 'Z' then c - 'A' + 'a' else c
  }

  // ---- Parsing.

  datatype Version = Version(major: int, minor: int, patch: int, suffix: string, number: int)

  predicate IsPrerelease(v: Version) {
    v.suffix != ""
  }

  function NormalizeTag(text: string): string {
    var s := Strip(text);
    Strip(if s != "" && s[0] in {'v', 'V'} then s[1..] else s)
  }

  // The letters of a prerelease suffix, in lower case, and its digits.
  function SuffixOf(pre: string): string {
    if pre == "" then ""
    else
      var c := pre[|pre| - 1];
      SuffixOf(pre[..|pre| - 1]) + (if IsDigit(c) || c == '.' || c == '_' then "" else [ToLower(c)])
  }

  function NumberOf(pre: string): (n: string)
    ensures IsDecimal(n)
  {
    if pre == "" then "" else NumberOf(pre[..|pre| - 1]) + (if IsDigit(pre[|pre| - 1]) then [pre[|pre| - 1]] else "")
  }

  function CoreOf(parts: seq<string>): Option<Version> {
    if |parts| < 2 || |parts| > 3 then None
    else
      var major, minor, patch := Atoi(parts[0]), Atoi(parts[1]), if |parts| == 3 then Atoi(parts[2]) else Some(0);
      if major.None? || minor.None? || patch.None? then None
      else Some(Version(major.value, minor.value, patch.value, "", 0))
  }

  function WithPrerelease(v: Version, pre: string): Option<Version> {
    if pre == "" then Some(v)
    else if SuffixOf(pre) == "" then None
    else if NumberOf(pre) == "" then Some(v.(suffix := SuffixOf(pre)))
    else
      var n := Atoi(NumberOf(pre));
      if n.None? then None else Some(v.(suffix := SuffixOf(pre), number := n.value))
  }

  function Parsed(text: string): Option<Version> {
    var s := NormalizeTag(text);
    var dash := Find(s, '-');
    var core := CoreOf(Pieces(s[..dash], '.'));
    if s == "" || core.None? then None else WithPrerelease(core.value, if dash == |s| then "" else s[dash + 1..])
  }

  // The loop over the suffix.
  method SplitPrerelease(pre: string) returns (suffix: string, numberText: string)
    ensures suffix == SuffixOf(pre) && numberText == NumberOf(pre)
  {
    suffix, numberText := "", "";
    for i := 0 to |pre|
      invariant suffix == SuffixOf(pre[..i]) && numberText == NumberOf(pre[..i])
    {
      var c := pre[i];
      assert pre[..i + 1][..i] == pre[..i];
      if IsDigit(c) {
        numberText := numberText + [c];
      } else if c == '.' || c == '_' {
        continue;
      } else {
        suffix := suffix + [ToLower(c)];
      }
    }
    assert pre[..|pre|] == pre;
  }

  // The numbers of a version.
  method ReadCore(parts: seq<string>) returns (r: Option<Version>)
    ensures r == CoreOf(parts)
  {
    hide Atoi;
    if |parts| < 2 || |parts| > 3 {
      return None;
    }
    var major, minor := Atoi(parts[0]), Atoi(parts[1]);
    if major.None? || minor.None? {
      return None;
    }
    var v := Version(major.value, minor.value, 0, "", 0);
    if |parts| == 3 {
      var patch := Atoi(parts[2]);
      if patch.None? {
        return None;
      }
      v := v.(patch := patch.value);
    }
    r := Some(v);
  }

  // The suffix of a version.
  method ReadPrerelease(core: Version, pre: string) returns (r: Option<Version>)
    ensures r == WithPrerelease(core, pre)
  {
    hide Atoi;
    hide SuffixOf;
    hide NumberOf;
    var v := core;
    if pre != "" {
      var suffix, numberText := SplitPrerelease(pre);
      if suffix == "" {
        return None;
      }
      v := v.(suffix := suffix);
      if numberText != "" {
        var number := Atoi(numberText);
        if number.None? {
          return None;
        }
        v := v.(number := number.value);
      }
    }
    r := Some(v);
  }

  method ParseMarinaSemVer(text: string) returns (r: Option<Version>)
    ensures r == Parsed(text)
    ensures r.Some? ==> WellFormed(r.value)
  {
    ParsedWellFormed(text);
    hide CoreOf;
    hide WithPrerelease;
    hide Pieces;
    hide NormalizeTag;
    hide WellFormed;
    var normalized := NormalizeTag(text);
    if normalized == "" {
      return None;
    }
    var core, pre := normalized, "";
    var dash := Find(normalized, '-');
    if dash != |normalized| {
      core, pre := normalized[..dash], normalized[dash + 1..];
    }
    assert core == normalized[..dash];
    var v := ReadCore(Pieces(core, '.'));
    if v.None? {
      return None;
    }
    r := ReadPrerelease(v.value, pre);
  }

  // ---- The order.

  function PrereleaseRank(suffix: string): nat {
    if suffix == "alpha" then 1 else if suffix == "beta" then 2 else if suffix == "rc" then 3 else 0
  }

  // The order of strings, character by character.
  predicate TextLess(a: string, b: string) {
    if b == "" then false
    else if a == "" then true
    else if a[0] != b[0] then a[0] < b[0]
    else TextLess(a[1..], b[1..])
  }

  predicate Less(a: Version, b: Version) {
    if a.major != b.major then a.major < b.major
    else if a.minor != b.minor then a.minor < b.minor
    else if a.patch != b.patch then a.patch < b.patch
    else if IsPrerelease(a) != IsPrerelease(b) then IsPrerelease(a)
    else if !IsPrerelease(a) then false
    else if PrereleaseRank(a.suffix) != PrereleaseRank(b.suffix) then PrereleaseRank(a.suffix) < PrereleaseRank(b.suffix)
    else if a.suffix != b.suffix then TextLess(a.suffix, b.suffix)
    else a.number < b.number
  }

  predicate TagLess(a: string, b: string) {
    Parsed(a).Some? && Parsed(b).Some? && Less(Parsed(a).value, Parsed(b).value)
  }

  // A final release has no prerelease number.
  predicate WellFormed(v: Version) {
    v.suffix == "" ==> v.number == 0
  }

  lemma ParsedWellFormed(text: string)
    ensures Parsed(text).Some? ==> WellFormed(Parsed(text).value)
  {
    hide Atoi;
    hide Pieces;
    hide NormalizeTag;
  }

  lemma {:induction false} TextLessTotal(a: string, b: string)
    ensures !(TextLess(a, b) && TextLess(b, a))
    ensures a != b <==> TextLess(a, b) || TextLess(b, a)
  {
    if a != "" && b != "" {
      TextLessTotal(a[1..], b[1..]);
      if a[0] == b[0] && a[1..] == b[1..] {
        assert a == [a[0]] + a[1..] == b;
      }
    }
  }

  lemma {:induction false} TextLessTransitive(a: string, b: string, c: string)
    requires TextLess(a, b) && TextLess(b, c)
    ensures TextLess(a, c)
  {
    if a != "" && a[0] == b[0] == c[0] {
      TextLessTransitive(a[1..], b[1..], c[1..]);
    }
  }

  // Versions are in a strict total order: of two that are different exactly one is
  // less.
  lemma LessTotal(a: Version, b: Version)
    requires WellFormed(a) && WellFormed(b)
    ensures !(Less(a, b) && Less(b, a))
    ensures a != b <==> Less(a, b) || Less(b, a)
  {
    hide TextLess;
    TextLessTotal(a.suffix, b.suffix);
  }

  lemma LessTransitive(a: Version, b: Version, c: Version)
    requires Less(a, b) && Less(b, c)
    ensures Less(a, c)
  {
    hide TextLess;
    TextLessTotal(a.suffix, b.suffix);
    TextLessTotal(b.suffix, c.suffix);
    TextLessTotal(a.suffix, c.suffix);
    if TextLess(a.suffix, b.suffix) && TextLess(b.suffix, c.suffix) {
      TextLessTransitive(a.suffix, b.suffix, c.suffix);
    }
  }

  lemma TagLessOrder(a: string, b: string, c: string)
    ensures !(TagLess(a, b) && TagLess(b, a))
    ensures TagLess(a, b) && TagLess(b, c) ==> TagLess(a, c)
  {
    ParsedWellFormed(a);
    ParsedWellFormed(b);
    hide Less;
    hide Parsed;
    if TagLess(a, b) && TagLess(b, a) {
      LessTotal(Parsed(a).value, Parsed(b).value);
    }
    if TagLess(a, b) && TagLess(b, c) {
      LessTransitive(Parsed(a).value, Parsed(b).value, Parsed(c).value);
    }
  }

  // The stages of one release, in order: any other suffix, alpha, beta, rc by number,
  // and the final release; whatever the stage, a higher patch is above them all.
  lemma Ladder(v: Version, other: string, m: int, n: int)
    requires other !in {"", "alpha", "beta", "rc"}
    ensures Less(v.(suffix := other, number := m), v.(suffix := "alpha", number := n))
    ensures Less(v.(suffix := "alpha", number := m), v.(suffix := "beta", number := n))
    ensures Less(v.(suffix := "beta", number := m), v.(suffix := "rc", number := n))
    ensures Less(v.(suffix := "rc", number := m), v.(suffix := "rc", number := n)) <==> m < n
    ensures Less(v.(suffix := "rc", number := m), v.(suffix := "", number := 0))
    ensures Less(v.(suffix := "", number := 0), v.(patch := v.patch + 1, suffix := other, number := n))
  {
  }

  // The numbers come first, in their order: what is left of them decides whatever
  // comes after.
  lemma NumbersDecide(a: Version, b: Version)
    ensures a.major < b.major ==> Less(a, b)
    ensures a.major == b.major && a.minor < b.minor ==> Less(a, b)
    ensures a.major == b.major && a.minor == b.minor && a.patch < b.patch ==> Less(a, b)
    ensures Less(a, b) ==> a.major <= b.major && (a.major == b.major ==> a.minor <= b.minor)
    ensures Less(a, b) && a.major == b.major && a.minor == b.minor ==> a.patch <= b.patch
  {
    hide TextLess;
    hide PrereleaseRank;
  }

  lemma ZeroRead()
    ensures Atoi("0") == Some(0)
  {
    assert Strip("0") == "0";
    assert Digits("0") == [0];
    assert [0][..0] == [];
    assert NumberRoundTrip.ValueOf("0") == 0;
  }

  // A version of two numbers is that of three with a patch of zero.
  lemma NoPatchIsPatchZero(major: string, minor: string)
    ensures CoreOf([major, minor]) == CoreOf([major, minor, "0"])
  {
    ZeroRead();
    hide Atoi;
  }
}
