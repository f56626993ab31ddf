// src/base/marina_github_releases.cc: the choice of the release to update to.
module Releases {
  import opened Options
  import opened SemVer
  import NumberPrinter

  datatype Release = Release(tagName: string, htmlUrl: string, prerelease: bool, draft: bool)

  function LowerText(s: string): string {
    seq(|s|, i requires 0 <= i < |s| => ToLower(s[i]))
  }

  predicate Unstable(text: string) {
    if Parsed(text).Some? then IsPrerelease(Parsed(text).value)
    else
      var lower := LowerText(NormalizeTag(text));
      NumberPrinter.Contains(lower, "-rc") || NumberPrinter.Contains(lower, "-alpha") || NumberPrinter.Contains(lower, "-beta")
  }

  // A release that may be offered at all.
  predicate Eligible(r: Release, includeUnstable: bool) {
    !r.draft && (includeUnstable || (!r.prerelease && !Unstable(r.tagName)))
  }

  predicate Offered(r: Release, current: string, includeUnstable: bool) {
    Eligible(r, includeUnstable) && TagLess(NormalizeTag(current), r.tagName)
  }

  // The release offered at i is the first of the newest of the first n.
  ghost predicate Newest(releases: seq<Release>, n: nat, current: string, includeUnstable: bool, i: nat) {
    && i < n <= |releases| && Offered(releases[i], current, includeUnstable)
    && (forall j :: 0 <= j < n && Offered(releases[j], current, includeUnstable) ==> !TagLess(releases[i].tagName, releases[j].tagName))
    && (forall j :: 0 <= j < i && Offered(releases[j], current, includeUnstable) ==> TagLess(releases[j].tagName, releases[i].tagName))
  }

  ghost predicate NoneOffered(releases: seq<Release>, n: nat, current: string, includeUnstable: bool) {
    n <= |releases| && forall j :: 0 <= j < n ==> !Offered(releases[j], current, includeUnstable)
  }

  // What SelectNewerMarinaRelease promises.
  ghost predicate IsSelection(releases: seq<Release>, current: string, includeUnstable: bool, r: Option<Release>) {
    if r.None? then NoneOffered(releases, |releases|, current, includeUnstable)
    else exists i: nat :: i < |releases| && releases[i] == r.value && Newest(releases, |releases|, current, includeUnstable, i)
  }

  lemma NewerStill(releases: seq<Release>, n: nat, current: string, includeUnstable: bool, best: nat)
    requires n < |releases| && Newest(releases, n, current, includeUnstable, best)
    ensures var better := Offered(releases[n], current, includeUnstable) && TagLess(releases[best].tagName, releases[n].tagName);
            Newest(releases, n + 1, current, includeUnstable, if better then n else best)
  {
    hide TagLess;
    hide Offered;
    if Offered(releases[n], current, includeUnstable) && TagLess(releases[best].tagName, releases[n].tagName) {
      forall j | 0 <= j < n && Offered(releases[j], current, includeUnstable) ensures TagLess(releases[j].tagName, releases[n].tagName) {
        OfferedParses(releases[j], current, includeUnstable);
        OfferedParses(releases[best], current, includeUnstable);
        OfferedParses(releases[n], current, includeUnstable);
        NotLessThenLess(releases[best].tagName, releases[j].tagName, releases[n].tagName);
      }
      TagLessOrder(releases[n].tagName, releases[n].tagName, releases[n].tagName);
      forall j | 0 <= j < n + 1 && Offered(releases[j], current, includeUnstable)
        ensures !TagLess(releases[n].tagName, releases[j].tagName) {
        TagLessOrder(releases[n].tagName, releases[j].tagName, releases[n].tagName);
      }
    }
  }

  lemma OfferedParses(r: Release, current: string, includeUnstable: bool)
    requires Offered(r, current, includeUnstable)
    ensures Parsed(r.tagName).Some?
  {
    hide Parsed;
  }

  // What is not above something is below whatever that is below.
  lemma NotLessThenLess(best: string, other: string, newer: string)
    requires Parsed(best).Some? && Parsed(other).Some? && Parsed(newer).Some?
    requires !TagLess(best, other) && TagLess(best, newer)
    ensures TagLess(other, newer)
  {
    ParsedWellFormed(best);
    ParsedWellFormed(other);
    hide Parsed;
    hide Less;
    var a, b, c := Parsed(best).value, Parsed(other).value, Parsed(newer).value;
    LessTotal(a, b);
    if a != b {
      LessTransitive(b, a, c);
    }
  }

  method SelectNewerMarinaRelease(releases: seq<Release>, currentVersion: string, includeUnstable: bool)
    returns (r: Option<Release>)
    ensures IsSelection(releases, currentVersion, includeUnstable, r)
  {
    hide Parsed;
    hide Less;
    hide Newest;
    var current := NormalizeTag(currentVersion);
    var parsed := ParseMarinaSemVer(current);
    if parsed.None? {
      return None;
    }
    var best: Option<nat> := None;
    for i := 0 to |releases|
      invariant best.Some? ==> Newest(releases, i, currentVersion, includeUnstable, best.value) && best.value < i
      invariant best.None? ==> NoneOffered(releases, i, currentVersion, includeUnstable)
    {
      var release := releases[i];
      if best.Some? {
        NewerStill(releases, i, currentVersion, includeUnstable, best.value);
      } else if Offered(release, currentVersion, includeUnstable) {
        FirstNewest(releases, i, currentVersion, includeUnstable);
      }
      if release.draft {
        continue;
      }
      if !includeUnstable && (release.prerelease || Unstable(release.tagName)) {
        continue;
      }
      if !TagLess(current, release.tagName) {
        continue;
      }
      if best.None? || TagLess(releases[best.value].tagName, release.tagName) {
        best := Some(i);
      }
    }
    if best.None? {
      return None;
    }
    r := Some(releases[best.value]);
  }

  lemma FirstNewest(releases: seq<Release>, n: nat, current: string, includeUnstable: bool)
    requires n < |releases| && NoneOffered(releases, n, current, includeUnstable) && Offered(releases[n], current, includeUnstable)
    ensures Newest(releases, n + 1, current, includeUnstable, n)
  {
    hide TagLess;
    hide Offered;
    TagLessOrder(releases[n].tagName, releases[n].tagName, releases[n].tagName);
  }

  // ---- Running it again.

  lemma {:induction false} StripRightAgain(s: string)
    ensures StripRight(StripRight(s)) == StripRight(s)
    ensures StripRight(s) != "" ==> StripRight(s)[0] == s[0]
    ensures s != "" && !IsSpace(s[0]) ==> StripRight(s) != ""
  {
    hide IsSpace;
    if s != "" && IsSpace(s[|s| - 1]) {
      StripRightAgain(s[..|s| - 1]);
    }
  }

  lemma {:induction false} StripLeftFirst(s: string)
    ensures StripLeft(s) != "" ==> !IsSpace(StripLeft(s)[0])
  {
    hide IsSpace;
    if s != "" && IsSpace(s[0]) {
      StripLeftFirst(s[1..]);
    }
  }

  lemma StripAgain(s: string)
    ensures Strip(Strip(s)) == Strip(s)
  {
    hide IsSpace;
    StripLeftFirst(s);
    StripRightAgain(StripLeft(s));
  }

  lemma StripKeepsFirst(s: string)
    requires s != "" && !IsSpace(s[0])
    ensures Strip(s) != "" && Strip(s)[0] == s[0]
  {
    hide IsSpace;
    StripRightAgain(s);
  }

  // A number does not begin with a letter.
  lemma NoNumberAfterLetter(s: string)
    requires s != "" && s[0] in {'v', 'V'}
    ensures Atoi(s).None?
  {
    StripKeepsFirst(s);
  }

  lemma FirstPiece(s: string, c: char)
    requires s != "" && s[0] != c
    ensures Pieces(s, c) != [] && Pieces(s, c)[0] != "" && Pieces(s, c)[0][0] == s[0]
  {
  }

  // A version that can be read has no second letter to take off.
  lemma NormalizedOnce(tag: string)
    requires Parsed(tag).Some?
    ensures NormalizeTag(NormalizeTag(tag)) == NormalizeTag(tag)
  {
    var s := NormalizeTag(tag);
    var t := Strip(tag);
    StripAgain(if t != "" && t[0] in {'v', 'V'} then t[1..] else t);
    assert Strip(s) == s;
    if s != "" && s[0] in {'v', 'V'} {
      var core := s[..Find(s, '-')];
      FirstPiece(core, '.');
      NoNumberAfterLetter(Pieces(core, '.')[0]);
    }
  }

  lemma SameWhenNormalized(tag: string, other: string)
    requires Parsed(tag).Some?
    ensures TagLess(NormalizeTag(tag), other) == TagLess(tag, other)
  {
    NormalizedOnce(tag);
    hide Less;
    hide NormalizeTag;
    hide CoreOf;
    hide WithPrerelease;
  }

  // Once the selected release is installed there is nothing newer to select.
  lemma SelectionSettles(releases: seq<Release>, current: string, includeUnstable: bool, r: Release, again: Option<Release>)
    requires IsSelection(releases, current, includeUnstable, Some(r))
    requires IsSelection(releases, r.tagName, includeUnstable, again)
    ensures again == None
  {
    hide TagLess;
    hide Parsed;
    hide Eligible;
    var i: nat :| i < |releases| && releases[i] == r && Newest(releases, |releases|, current, includeUnstable, i);
    if again.Some? {
      var j: nat :| j < |releases| && releases[j] == again.value && Newest(releases, |releases|, r.tagName, includeUnstable, j);
      OfferedParses(r, current, includeUnstable);
      SameWhenNormalized(r.tagName, again.value.tagName);
      TagLessOrder(NormalizeTag(current), r.tagName, again.value.tagName);
    }
  }

  // A selection is an eligible release that no eligible one is newer than.
  lemma SelectionIsNewest(releases: seq<Release>, current: string, includeUnstable: bool, r: Release, other: Release)
    requires IsSelection(releases, current, includeUnstable, Some(r))
    requires other in releases && Eligible(other, includeUnstable)
    ensures !TagLess(r.tagName, other.tagName) && TagLess(NormalizeTag(current), r.tagName)
  {
    hide TagLess;
    hide Eligible;
    var i: nat :| i < |releases| && releases[i] == r && Newest(releases, |releases|, current, includeUnstable, i);
    var j :| 0 <= j < |releases| && releases[j] == other;
    TagLessOrder(NormalizeTag(current), r.tagName, other.tagName);
  }

  // ---- What is selected, from the versions and the marks of the releases.

  // A release that may be offered: no draft, and unless unstable ones are wanted
  // neither marked as a prerelease nor with a suffix in its version.
  predicate MayBeOffered(r: Release, includeUnstable: bool) {
    && !r.draft && Parsed(r.tagName).Some?
    && (!includeUnstable ==> !r.prerelease && Parsed(r.tagName).value.suffix == "")
  }

  // Nothing is selected exactly when no release that may be offered is newer than the
  // current version; otherwise what is selected may be offered and is newer.
  lemma SelectionIff(releases: seq<Release>, current: string, includeUnstable: bool, r: Option<Release>)
    requires IsSelection(releases, current, includeUnstable, r) && Parsed(current).Some?
    ensures r.None? <==> forall j :: 0 <= j < |releases| && MayBeOffered(releases[j], includeUnstable) ==>
                                       !Less(Parsed(current).value, Parsed(releases[j].tagName).value)
    ensures r.Some? ==> r.value in releases && MayBeOffered(r.value, includeUnstable)
                        && Less(Parsed(current).value, Parsed(r.value.tagName).value)
  {
    forall j | 0 <= j < |releases|
      ensures Offered(releases[j], current, includeUnstable) <==>
              MayBeOffered(releases[j], includeUnstable) && Less(Parsed(current).value, Parsed(releases[j].tagName).value)
    {
      SameWhenNormalized(current, releases[j].tagName);
      hide Parsed;
      hide Less;
    }
    hide Offered;
    hide MayBeOffered;
    hide Parsed;
    hide Less;
    if r.Some? {
      var i: nat :| i < |releases| && releases[i] == r.value && Newest(releases, |releases|, current, includeUnstable, i);
    }
  }

  // So a release with a higher major version, or minor version of the same major, or
  // patch of the same minor, is never passed over for nothing.
  lemma HigherIsSelected(releases: seq<Release>, current: string, includeUnstable: bool, r: Option<Release>, other: Release)
    requires IsSelection(releases, current, includeUnstable, r) && Parsed(current).Some?
    requires other in releases && MayBeOffered(other, includeUnstable)
    requires var a, b := Parsed(current).value, Parsed(other.tagName).value;
             || a.major < b.major
             || (a.major == b.major && a.minor < b.minor)
             || (a.major == b.major && a.minor == b.minor && a.patch < b.patch)
    ensures r.Some?
  {
    NumbersDecide(Parsed(current).value, Parsed(other.tagName).value);
    SelectionIff(releases, current, includeUnstable, r);
    hide Parsed;
    hide Less;
    hide MayBeOffered;
    var j :| 0 <= j < |releases| && releases[j] == other;
  }
}
