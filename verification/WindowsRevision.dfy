// src/build_tools/mozc_version.py: the Windows file-version revision of a release,
// against the order of versions in src/base/marina_semver.cc.
module WindowsRevision {
  import opened Options
  import opened SemVer
  import opened NumberPrinter
  import NumberRoundTrip

  const SLOTS := 16
  const FINAL_SLOT := 15
  const MAX_RC := 14

  // The characters that \d matches in Python, with their values: the ASCII digits,
  // and whatever others Unicode counts as decimal digits.
  type Decimals = map<char, nat>

  ghost predicate IsTable(nd: Decimals) {
    && (forall c :: c in nd ==> nd[c] < 10)
    && (forall c :: IsDigit(c) ==> c in nd && nd[c] == DigitOf(c))
    && (forall c :: c in nd && !IsDigit(c) ==> c as int >= 128)
  }

  predicate AllDecimal(nd: Decimals, s: string) {
    s != "" && forall k :: 0 <= k < |s| ==> s[k] in nd
  }

  // Python's int().
  function IntOf(nd: Decimals, s: string): nat
    requires s != "" ==> AllDecimal(nd, s)
  {
    if s == "" then 0 else IntOf(nd, s[..|s| - 1]) * 10 + nd[s[|s| - 1]]
  }

  // The groups of a full match of v?(\d+)\.(\d+)\.(\d+)(?:-rc(\d+))?
  datatype Parts = Parts(v: bool, major: string, minor: string, patch: string, rc: Option<string>)

  predicate IsMatch(nd: Decimals, p: Parts) {
    AllDecimal(nd, p.major) && AllDecimal(nd, p.minor) && AllDecimal(nd, p.patch) && (p.rc.Some? ==> AllDecimal(nd, p.rc.value))
  }

  function CoreText(p: Parts): string {
    p.major + "." + p.minor + "." + p.patch
  }

  function BareText(p: Parts): string {
    CoreText(p) + (if p.rc.Some? then "-" + ("rc" + p.rc.value) else "")
  }

  // The version that matches.
  function Text(p: Parts): string {
    (if p.v then "v" else "") + BareText(p)
  }

  function Base(nd: Decimals, p: Parts): nat
    requires IsMatch(nd, p)
  {
    IntOf(nd, p.major) * 10000 + IntOf(nd, p.minor) * 100 + IntOf(nd, p.patch)
  }

  // The revision of a version that matches; None where the build fails.
  function Revision(nd: Decimals, p: Parts): (r: Option<nat>)
    requires IsMatch(nd, p)
    ensures r.Some? ==> 1 <= r.value < 0x1_0000
  {
    var slot := if p.rc.None? then FINAL_SLOT else IntOf(nd, p.rc.value);
    var revision := Base(nd, p) * SLOTS + slot;
    if p.rc.Some? && !(1 <= slot <= MAX_RC) then None
    else if IntOf(nd, p.minor) >= 100 || IntOf(nd, p.patch) >= 100 || revision > 0xffff then None
    else Some(revision)
  }

  predicate Accepted(nd: Decimals, p: Parts) {
    IsMatch(nd, p) && Revision(nd, p).Some?
  }

  predicate IsAscii(p: Parts) {
    IsDecimal(p.major) && IsDecimal(p.minor) && IsDecimal(p.patch) && (p.rc.Some? ==> IsDecimal(p.rc.value))
  }

  // ---- How the version is read in C++.

  lemma {:induction false} AsciiInt(nd: Decimals, s: string)
    requires IsTable(nd) && IsDecimal(s)
    ensures (s != "" ==> AllDecimal(nd, s)) && IntOf(nd, s) == NumberRoundTrip.ValueOf(s)
  {
    if s == "" {
      NumberRoundTrip.NoValueInZeros([]);
    } else {
      AsciiInt(nd, s[..|s| - 1]);
      assert Digits(s)[..|s| - 1] == Digits(s[..|s| - 1]);
    }
  }

  predicate NoSpace(s: string) {
    forall k :: 0 <= k < |s| ==> !IsSpace(s[k])
  }

  lemma NothingToStrip(s: string)
    requires NoSpace(s)
    ensures Strip(s) == s
  {
    hide IsSpace;
  }

  lemma {:induction false} FindNone(s: string, c: char)
    requires c !in s
    ensures Find(s, c) == |s|
  {
    hide Find;
  }

  lemma FindFirst(a: string, c: char, b: string)
    requires c !in a
    ensures Find(a + [c] + b, c) == |a|
  {
    hide Find;
    var s := a + [c] + b;
    assert s[|a|] == c;
    assert forall k :: 0 <= k < |a| ==> s[k] == a[k];
  }

  // Digits contain none of the characters that a version is cut at.
  lemma PlainDigits(nd: Decimals, s: string)
    requires IsTable(nd) && AllDecimal(nd, s)
    ensures '.' !in s && '-' !in s && NoSpace(s) && s[0] !in {'v', 'V', '+', '-'}
  {
  }

  lemma NoSpaceJoined(a: string, b: string)
    requires NoSpace(a) && NoSpace(b)
    ensures NoSpace(a + b)
  {
    hide IsSpace;
  }

  lemma VersionHasNoSpace(nd: Decimals, p: Parts)
    requires IsTable(nd) && IsMatch(nd, p)
    ensures NoSpace(BareText(p)) && NoSpace(Text(p))
  {
    PlainDigits(nd, p.major);
    PlainDigits(nd, p.minor);
    PlainDigits(nd, p.patch);
    NoSpaceJoined(p.major, ".");
    NoSpaceJoined(p.major + ".", p.minor);
    NoSpaceJoined(p.major + "." + p.minor, ".");
    NoSpaceJoined(p.major + "." + p.minor + ".", p.patch);
    if p.rc.Some? {
      PlainDigits(nd, p.rc.value);
      NoSpaceJoined("rc", p.rc.value);
      NoSpaceJoined("-", "rc" + p.rc.value);
      NoSpaceJoined(CoreText(p), "-" + ("rc" + p.rc.value));
    }
    hide BareText;
    NoSpaceJoined("v", BareText(p));
    NoSpaceJoined("", BareText(p));
  }

  lemma TagNormalized(nd: Decimals, p: Parts)
    requires IsTable(nd) && IsMatch(nd, p)
    ensures NormalizeTag(Text(p)) == BareText(p) != ""
  {
    VersionHasNoSpace(nd, p);
    PlainDigits(nd, p.major);
    assert BareText(p)[0] == p.major[0];
    hide BareText;
    hide NoSpace;
    NothingToStrip(Text(p));
    NothingToStrip(BareText(p));
    hide Strip;
    if p.v {
      assert Text(p)[1..] == BareText(p);
    } else {
      assert Text(p) == BareText(p);
    }
  }

  lemma CutAtDash(nd: Decimals, p: Parts)
    requires IsTable(nd) && IsMatch(nd, p)
    ensures var s := BareText(p);
            var dash := Find(s, '-');
            s[..dash] == CoreText(p) && (if p.rc.None? then dash == |s| else dash < |s| && s[dash + 1..] == "rc" + p.rc.value)
  {
    PlainDigits(nd, p.major);
    PlainDigits(nd, p.minor);
    PlainDigits(nd, p.patch);
    assert '-' !in CoreText(p);
    hide CoreText;
    if p.rc.None? {
      FindNone(CoreText(p), '-');
      assert BareText(p) == CoreText(p);
    } else {
      var pre := "rc" + p.rc.value;
      FindFirst(CoreText(p), '-', pre);
      assert BareText(p) == CoreText(p) + ['-'] + pre;
      assert (CoreText(p) + ['-'] + pre)[|CoreText(p)| + 1..] == pre;
    }
  }

  lemma OnePiece(s: string, c: char)
    requires c !in s && s != ""
    ensures Pieces(s, c) == [s]
  {
    FindNone(s, c);
    assert s[..|s|] == s;
  }

  lemma PieceThenMore(a: string, c: char, b: string)
    requires c !in a && a != ""
    ensures Pieces(a + [c] + b, c) == [a] + Pieces(b, c)
  {
    FindFirst(a, c, b);
    var s := a + [c] + b;
    assert s[..|a|] == a && s[|a| + 1..] == b;
    hide Find;
  }

  lemma CoreRegrouped(p: Parts)
    ensures CoreText(p) == p.major + ['.'] + (p.minor + ['.'] + p.patch)
  {
    assert "." == ['.'];
  }

  lemma CutThree(a: string, b: string, c: string)
    requires a != "" && b != "" && c != "" && '.' !in a && '.' !in b && '.' !in c
    ensures Pieces(a + ['.'] + (b + ['.'] + c), '.') == [a, b, c]
  {
    hide Pieces;
    hide Find;
    OnePiece(c, '.');
    PieceThenMore(b, '.', c);
    PieceThenMore(a, '.', b + ['.'] + c);
  }

  lemma CutAtDots(nd: Decimals, p: Parts)
    requires IsTable(nd) && IsMatch(nd, p)
    ensures Pieces(CoreText(p), '.') == [p.major, p.minor, p.patch]
  {
    hide Pieces;
    hide CoreText;
    hide NoSpace;
    PlainDigits(nd, p.major);
    PlainDigits(nd, p.minor);
    PlainDigits(nd, p.patch);
    hide IsTable;
    CutThree(p.major, p.minor, p.patch);
    CoreRegrouped(p);
  }

  // A number is read exactly when its digits are ASCII and it is not too large.
  lemma AtoiDigits(nd: Decimals, s: string)
    requires IsTable(nd) && AllDecimal(nd, s) && IntOf(nd, s) <= INT_MAX
    ensures Atoi(s) == if IsDecimal(s) then Some(IntOf(nd, s)) else None
  {
    PlainDigits(nd, s);
    NothingToStrip(s);
    hide Strip;
    if IsDecimal(s) {
      AsciiInt(nd, s);
      hide NumberRoundTrip.ValueOf;
    }
  }

  lemma SuffixOneMore(s: string, c: char)
    ensures SuffixOf(s + [c]) == SuffixOf(s) + (if IsDigit(c) || c == '.' || c == '_' then "" else [ToLower(c)])
    ensures NumberOf(s + [c]) == NumberOf(s) + (if IsDigit(c) then [c] else "")
  {
    hide ToLower;
    assert (s + [c])[..|s|] == s;
  }

  lemma {:induction false} SuffixJoined(a: string, b: string)
    ensures SuffixOf(a + b) == SuffixOf(a) + SuffixOf(b) && NumberOf(a + b) == NumberOf(a) + NumberOf(b)
  {
    hide SuffixOf;
    hide NumberOf;
    hide ToLower;
    if b == "" {
      assert a + b == a;
      NoSuffix();
    } else {
      var front, c := b[..|b| - 1], b[|b| - 1];
      SuffixJoined(a, front);
      SuffixOneMore(front, c);
      SuffixOneMore(a + front, c);
      assert b == front + [c] && a + b == a + front + [c];
    }
  }

  lemma NoSuffix()
    ensures SuffixOf("") == "" && NumberOf("") == ""
  {
  }

  lemma {:induction false} SuffixOfDigits(s: string)
    requires IsDecimal(s)
    ensures SuffixOf(s) == "" && NumberOf(s) == s
  {
    if s != "" {
      SuffixOfDigits(s[..|s| - 1]);
      assert s == s[..|s| - 1] + [s[|s| - 1]];
    }
  }

  lemma SuffixOfRc()
    ensures SuffixOf("rc") == "rc" && NumberOf("rc") == ""
  {
    assert "rc"[..1] == "r" && "r"[..0] == "";
    assert SuffixOf("r") == "r";
  }

  // The prerelease suffix of an accepted version, read in C++.
  lemma AsciiRcRead(nd: Decimals, rc: string, v: Version)
    requires IsTable(nd) && AllDecimal(nd, rc) && IsDecimal(rc) && IntOf(nd, rc) <= INT_MAX
    ensures WithPrerelease(v, "rc" + rc) == Some(v.(suffix := "rc", number := IntOf(nd, rc)))
  {
    hide SuffixOf;
    hide NumberOf;
    hide Atoi;
    hide IntOf;
    hide IsTable;
    SuffixJoined("rc", rc);
    SuffixOfRc();
    SuffixOfDigits(rc);
    AtoiDigits(nd, rc);
    assert "rc" + "" == "rc" && "" + rc == rc;
  }

  // An accepted version is small.
  lemma AcceptedBounds(nd: Decimals, p: Parts)
    requires Accepted(nd, p)
    ensures IntOf(nd, p.major) == 0 && IntOf(nd, p.minor) < 41 && IntOf(nd, p.patch) < 100
    ensures p.rc.Some? ==> 1 <= IntOf(nd, p.rc.value) <= MAX_RC
  {
    hide IntOf;
  }

  function Slot(nd: Decimals, p: Parts): nat
    requires IsMatch(nd, p)
  {
    if p.rc.None? then FINAL_SLOT else IntOf(nd, p.rc.value)
  }

  // The numbers fit an int.
  predicate Fits(nd: Decimals, p: Parts)
    requires IsMatch(nd, p)
  {
    && IntOf(nd, p.major) <= INT_MAX && IntOf(nd, p.minor) <= INT_MAX && IntOf(nd, p.patch) <= INT_MAX
    && (p.rc.Some? ==> IntOf(nd, p.rc.value) <= INT_MAX)
  }

  lemma CoreRead(nd: Decimals, p: Parts)
    requires IsTable(nd) && IsMatch(nd, p) && Fits(nd, p)
    ensures CoreOf([p.major, p.minor, p.patch]) ==
            if IsDecimal(p.major) && IsDecimal(p.minor) && IsDecimal(p.patch)
            then Some(Version(IntOf(nd, p.major), IntOf(nd, p.minor), IntOf(nd, p.patch), "", 0)) else None
  {
    AtoiDigits(nd, p.major);
    AtoiDigits(nd, p.minor);
    AtoiDigits(nd, p.patch);
    hide Atoi;
    hide IntOf;
  }

  lemma ParsedParts(nd: Decimals, p: Parts)
    requires IsTable(nd) && IsMatch(nd, p)
    ensures Parsed(Text(p)) ==
            var core := CoreOf([p.major, p.minor, p.patch]);
            if core.None? then None else WithPrerelease(core.value, if p.rc.None? then "" else "rc" + p.rc.value)
  {
    hide CoreOf;
    hide WithPrerelease;
    hide NormalizeTag;
    hide BareText;
    hide CoreText;
    hide Text;
    TagNormalized(nd, p);
    CutAtDash(nd, p);
    CutAtDots(nd, p);
    hide Pieces;
    hide Find;
  }

  // What a version in ASCII digits is, in C++.
  function VersionOf(nd: Decimals, p: Parts): Version
    requires IsMatch(nd, p)
  {
    Version(IntOf(nd, p.major), IntOf(nd, p.minor), IntOf(nd, p.patch),
            if p.rc.None? then "" else "rc", if p.rc.None? then 0 else IntOf(nd, p.rc.value))
  }

  // Any version written in ASCII digits is read as its numbers, if they fit.
  lemma WrittenParsed(nd: Decimals, p: Parts)
    requires IsTable(nd) && IsMatch(nd, p) && IsAscii(p) && Fits(nd, p)
    ensures Parsed(Text(p)) == Some(VersionOf(nd, p))
  {
    ParsedParts(nd, p);
    CoreRead(nd, p);
    hide IntOf;
    hide Parsed;
    hide CoreOf;
    if p.rc.Some? {
      AsciiRcRead(nd, p.rc.value, CoreOf([p.major, p.minor, p.patch]).value);
      hide WithPrerelease;
    }
  }

  lemma AcceptedFits(nd: Decimals, p: Parts)
    requires Accepted(nd, p)
    ensures Fits(nd, p)
  {
    AcceptedBounds(nd, p);
    hide IntOf;
  }

  lemma AsciiParsed(nd: Decimals, p: Parts)
    requires IsTable(nd) && Accepted(nd, p) && IsAscii(p)
    ensures Parsed(Text(p)) == Some(VersionOf(nd, p))
  {
    AcceptedFits(nd, p);
    WrittenParsed(nd, p);
    hide Fits;
    hide Parsed;
    hide Text;
    hide Revision;
  }

  // A version has a revision exactly when its rc number, if it has one, is from 1 to 14
  // and its base stays below 4096 with two digits for the minor version and the patch.
  lemma AcceptedIffBelow(nd: Decimals, p: Parts)
    requires IsMatch(nd, p)
    ensures Accepted(nd, p) <==>
            && (p.rc.Some? ==> 1 <= IntOf(nd, p.rc.value) <= 14)
            && IntOf(nd, p.minor) < 100 && IntOf(nd, p.patch) < 100 && Base(nd, p) < 4096
    ensures Accepted(nd, p) ==> Revision(nd, p).value / 16 == Base(nd, p)
    ensures Accepted(nd, p) ==> Revision(nd, p).value % 16 == if p.rc.Some? then IntOf(nd, p.rc.value) else 15
  {
    hide IntOf;
    hide Base;
  }

  lemma TwoDigits(nd: Decimals, c: char, d: char)
    requires IsTable(nd) && IsDigit(c) && IsDigit(d)
    ensures AllDecimal(nd, [c, d]) && IntOf(nd, [c, d]) == 10 * DigitOf(c) + DigitOf(d)
  {
    DigitInt(nd, c);
    assert [c, d][..1] == [c];
  }

  // The revisions that the documentation gives.
  lemma DocumentedRevisions(nd: Decimals)
    requires IsTable(nd)
    ensures IsMatch(nd, Parts(false, "0", "0", "18", None)) && IsMatch(nd, Parts(false, "0", "0", "18", Some("1")))
    ensures IsMatch(nd, Parts(false, "0", "0", "18", Some("2"))) && IsMatch(nd, Parts(false, "0", "0", "19", Some("1")))
    ensures Revision(nd, Parts(false, "0", "0", "18", Some("1"))) == Some(289)
    ensures Revision(nd, Parts(false, "0", "0", "18", Some("2"))) == Some(290)
    ensures Revision(nd, Parts(false, "0", "0", "18", None)) == Some(303)
    ensures Revision(nd, Parts(false, "0", "0", "19", Some("1"))) == Some(305)
  {
    DigitInt(nd, '0');
    DigitInt(nd, '1');
    DigitInt(nd, '2');
    TwoDigits(nd, '1', '8');
    TwoDigits(nd, '1', '9');
    hide IntOf;
    hide AllDecimal;
  }

  // Digits below their radix compare as the number they make.
  lemma MixedRadix(m: nat, n: nat, s: nat, m': nat, n': nat, s': nat)
    requires n < 100 && n' < 100 && s < 16 && s' < 16
    ensures (m * 100 + n) * 16 + s < (m' * 100 + n') * 16 + s' <==> m < m' || (m == m' && (n < n' || (n == n' && s < s')))
  {
  }

  lemma VersionOrder(nd: Decimals, a: Parts, b: Parts)
    requires Accepted(nd, a) && Accepted(nd, b)
    ensures Revision(nd, a).value < Revision(nd, b).value <==> Less(VersionOf(nd, a), VersionOf(nd, b))
  {
    AcceptedBounds(nd, a);
    AcceptedBounds(nd, b);
    hide IntOf;
    hide TextLess;
    MixedRadix(IntOf(nd, a.minor), IntOf(nd, a.patch), Slot(nd, a), IntOf(nd, b.minor), IntOf(nd, b.patch), Slot(nd, b));
  }

  // The revision rises exactly with the version, for versions in ASCII digits.
  lemma OrderEmbedding(nd: Decimals, a: Parts, b: Parts)
    requires IsTable(nd) && Accepted(nd, a) && Accepted(nd, b) && IsAscii(a) && IsAscii(b)
    ensures Revision(nd, a).value < Revision(nd, b).value <==> TagLess(Text(a), Text(b))
  {
    AsciiParsed(nd, a);
    AsciiParsed(nd, b);
    VersionOrder(nd, a, b);
    hide Parsed;
    hide Revision;
    hide Less;
  }

  // ---- Other digits.

  // The order of two accepted versions and the order of their revisions agree.
  predicate Agree(nd: Decimals, a: Parts, b: Parts)
    requires Accepted(nd, a) && Accepted(nd, b)
  {
    && (Revision(nd, a).value < Revision(nd, b).value <==> TagLess(Text(a), Text(b)))
    && (Revision(nd, b).value < Revision(nd, a).value <==> TagLess(Text(b), Text(a)))
  }

  lemma {:induction false} SuffixKeeps(s: string, k: nat)
    requires k < |s| && !IsDigit(s[k]) && s[k] != '.' && s[k] != '_'
    ensures ToLower(s[k]) in SuffixOf(s)
  {
    if k < |s| - 1 {
      SuffixKeeps(s[..|s| - 1], k);
    }
  }

  lemma OtherDigitStays(nd: Decimals, rc: string)
    requires IsTable(nd) && AllDecimal(nd, rc) && !IsDecimal(rc)
    ensures PrereleaseRank(SuffixOf("rc" + rc)) == 0 && SuffixOf("rc" + rc) != ""
  {
    var k :| 0 <= k < |rc| && !IsDigit(rc[k]);
    SuffixKeeps("rc" + rc, k + 2);
    var c := rc[k];
    assert ("rc" + rc)[k + 2] == c && ToLower(c) == c && c as int >= 128;
    assert c in SuffixOf("rc" + rc);
  }

  // A prerelease suffix with another digit in it is below every rc, if it is read.
  lemma OtherRcRead(nd: Decimals, rc: string, v: Version)
    requires IsTable(nd) && AllDecimal(nd, rc) && !IsDecimal(rc)
    ensures var r := WithPrerelease(v, "rc" + rc);
            r.Some? ==> (r.value.major, r.value.minor, r.value.patch) == (v.major, v.minor, v.patch)
                        && IsPrerelease(r.value) && PrereleaseRank(r.value.suffix) == 0
  {
    OtherDigitStays(nd, rc);
    hide SuffixOf;
    hide NumberOf;
    hide Atoi;
    hide PrereleaseRank;
  }

  const FIRST := Parts(false, "0", "0", "0", Some("1"))
  const FINAL := Parts(false, "0", "0", "0", None)

  lemma DigitInt(nd: Decimals, c: char)
    requires IsTable(nd) && IsDigit(c)
    ensures AllDecimal(nd, [c]) && IsDecimal([c]) && IntOf(nd, [c]) == DigitOf(c)
  {
    assert [c][..0] == "";
    assert IntOf(nd, "") == 0;
  }

  lemma SmallVersions(nd: Decimals)
    requires IsTable(nd)
    ensures Accepted(nd, FIRST) && IsAscii(FIRST) && Revision(nd, FIRST) == Some(1)
    ensures Accepted(nd, FINAL) && IsAscii(FINAL) && Revision(nd, FINAL) == Some(15)
  {
    DigitInt(nd, '0');
    DigitInt(nd, '1');
    hide IntOf;
    hide AllDecimal;
  }

  // A version that is not read at all is less than none, whatever its revision.
  lemma UnreadDisagrees(nd: Decimals, p: Parts) returns (q: Parts)
    requires IsTable(nd) && Accepted(nd, p) && Parsed(Text(p)).None?
    ensures Accepted(nd, q) && IsAscii(q) && !Agree(nd, p, q)
  {
    SmallVersions(nd);
    hide Parsed;
    hide IsMatch;
    q := if Revision(nd, p).value > 1 then FIRST else FINAL;
    hide Revision;
  }

  // A first release candidate in ASCII of the same version is above one whose number
  // has another digit, though its revision is not.
  lemma OtherRcDisagrees(nd: Decimals, p: Parts) returns (q: Parts)
    requires IsTable(nd) && Accepted(nd, p) && Parsed(Text(p)).Some? && !IsAscii(p)
    ensures Accepted(nd, q) && IsAscii(q) && !Agree(nd, p, q)
  {
    AcceptedFits(nd, p);
    CoreRead(nd, p);
    ParsedParts(nd, p);
    AcceptedBounds(nd, p);
    DigitInt(nd, '1');
    hide CoreOf;
    hide IntOf;
    var core := CoreOf([p.major, p.minor, p.patch]).value;
    OtherRcRead(nd, p.rc.value, core);
    hide WithPrerelease;
    q := p.(rc := Some("1"));
    AcceptedFirst(nd, p, q);
    AsciiParsed(nd, q);
    hide Parsed;
    assert Revision(nd, q).value <= Revision(nd, p).value;
    assert Less(Parsed(Text(p)).value, VersionOf(nd, q)) by {
      LessByRank(Parsed(Text(p)).value, VersionOf(nd, q));
    }
    hide Less;
    hide Revision;
  }

  lemma AcceptedFirst(nd: Decimals, p: Parts, q: Parts)
    requires IsTable(nd) && Accepted(nd, p) && p.rc.Some? && q == p.(rc := Some("1"))
    ensures Accepted(nd, q) && Revision(nd, q).value <= Revision(nd, p).value
  {
    DigitInt(nd, '1');
    hide IntOf;
  }

  lemma LessByRank(a: Version, b: Version)
    requires (a.major, a.minor, a.patch) == (b.major, b.minor, b.patch) && IsPrerelease(a) && IsPrerelease(b)
    requires PrereleaseRank(a.suffix) == 0 && b.suffix == "rc"
    ensures Less(a, b)
  {
  }

  lemma AsciiAgrees(nd: Decimals, a: Parts, b: Parts)
    requires IsTable(nd) && Accepted(nd, a) && Accepted(nd, b) && IsAscii(a) && IsAscii(b)
    ensures Agree(nd, a, b)
  {
    OrderEmbedding(nd, a, b);
    OrderEmbedding(nd, b, a);
    hide TagLess;
    hide Revision;
  }

  // The build accepts digits that C++ does not read. An accepted version is in its
  // place among the ASCII ones exactly when it is in ASCII itself.
  lemma AgreesIffAscii(nd: Decimals, p: Parts)
    requires IsTable(nd) && Accepted(nd, p)
    ensures IsAscii(p) <==> forall q :: Accepted(nd, q) && IsAscii(q) ==> Agree(nd, p, q)
  {
    hide Accepted;
    hide IsAscii;
    hide Agree;
    hide Parsed;
    hide IsTable;
    if IsAscii(p) {
      forall q | Accepted(nd, q) && IsAscii(q) ensures Agree(nd, p, q) {
        AsciiAgrees(nd, p, q);
      }
    } else {
      var q;
      if Parsed(Text(p)).None? {
        q := UnreadDisagrees(nd, p);
      } else {
        q := OtherRcDisagrees(nd, p);
      }
    }
  }

  // The table with the full-width one in it.
  ghost const FULLWIDTH: Decimals := map c: char | IsDigit(c) || c == '１' :: if c == '１' then 1 else DigitOf(c)

  // A first release candidate written with it.
  const OUT_OF_PLACE := Parts(false, "0", "0", "0", Some("１"))

  // Such a version is accepted, and is out of its place.
  lemma FullwidthAccepted()
    ensures IsTable(FULLWIDTH)
    ensures Accepted(FULLWIDTH, OUT_OF_PLACE) && !IsAscii(OUT_OF_PLACE)
    ensures exists q :: Accepted(FULLWIDTH, q) && IsAscii(q) && !Agree(FULLWIDTH, OUT_OF_PLACE, q)
  {
    DigitInt(FULLWIDTH, '0');
    assert "１" == ['１'] && ['１'][..0] == "" && IntOf(FULLWIDTH, "") == 0;
    assert IntOf(FULLWIDTH, "１") == 1;
    hide IntOf;
    hide Agree;
    AgreesIffAscii(FULLWIDTH, OUT_OF_PLACE);
  }
}
