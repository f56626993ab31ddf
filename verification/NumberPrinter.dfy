// src/base/number_util.cc: the spelling of a decimal integer in Kanji numerals.
module NumberPrinter {
  import opened NumberParser

  datatype Style = ArabicAndKanjiHalfwidth | ArabicAndKanjiFullwidth | Kanji | OldKanji

  datatype NumberString = NumberString(value: string, description: string, style: Style)

  const MAX_RANKS := 5

  // ---- The tables.

  function DigitTable(style: Style): (table: string)
    ensures |table| == 10
  {
    match style
    case ArabicAndKanjiHalfwidth => "0123456789"
    case ArabicAndKanjiFullwidth => "０１２３４５６７８９"
    case Kanji => "〇一二三四五六七八九"
    case OldKanji => "〇壱弐参四五六七八九"
  }

  // The text of a digit; in the old style zero has none.
  function DigitText(style: Style, digit: nat): string
    requires digit < 10
  {
    if style.OldKanji? && digit == 0 then "" else [DigitTable(style)[digit]]
  }

  // The text of a place in a group of four, counted from the right.
  function RankText(style: Style, place: nat): string
    requires 1 <= place <= 4
  {
    if place == 1 then ""
    else if place == 2 then (if style.OldKanji? then "拾" else "十")
    else if place == 3 then "百"
    else (if style.OldKanji? then "阡" else "千")
  }

  function BiggerRankText(style: Style, rank: nat): string
    requires rank < MAX_RANKS
  {
    if rank == 0 then ""
    else if rank == 1 then (if style.OldKanji? then "萬" else "万")
    else if rank == 2 then "億"
    else if rank == 3 then "兆"
    else "京"
  }

  // ---- What is spelled: a sequence of number words.

  // A power of ten thousand.
  function Scale(rank: nat): (s: nat)
    ensures 1 <= s && (rank >= 1 ==> s >= 10000)
  {
    if rank == 0 then 1 else 10000 * Scale(rank - 1)
  }

  function UsesDigits(style: Style): bool {
    style.ArabicAndKanjiHalfwidth? || style.ArabicAndKanjiFullwidth?
  }

  function Unit(place: nat): nat
    requires place < 4
  {
    [1000, 100, 10, 1][place]
  }

  // A digit of a group of four: its unit, with the digit before it unless the
  // digit is one; the old style spells the one.
  function PlaceWords(style: Style, digit: nat, place: nat): seq<nat>
    requires place < 4
  {
    if digit == 0 then []
    else (if style.OldKanji? || place == 3 || digit != 1 then [digit] else []) + (if place == 3 then [] else [Unit(place)])
  }

  function PlacesWords(style: Style, group: seq<nat>, n: nat): seq<nat>
    requires n <= |group| == 4
  {
    if n == 0 then [] else PlacesWords(style, group, n - 1) + PlaceWords(style, group[n - 1], n - 1)
  }

  // A group of four digits, most significant first.
  function GroupWords(style: Style, group: seq<nat>): seq<nat>
    requires |group| == 4
  {
    if UsesDigits(style) then AfterZeros(group) else PlacesWords(style, group, 4)
  }

  // A group with the word for its rank; a group of zeros is left out.
  function RankedWords(style: Style, group: seq<nat>, rank: nat): seq<nat>
    requires |group| == 4
  {
    var words := GroupWords(style, group);
    if words == [] then [] else words + (if rank == 0 then [] else [Scale(rank)])
  }

  predicate Groups(groups: seq<seq<nat>>) {
    forall k :: 0 <= k < |groups| ==> |groups[k]| == 4 && AllDigits(groups[k])
  }

  // The lowest n groups of a number, given least significant first.
  function Words(style: Style, groups: seq<seq<nat>>, n: nat): seq<nat>
    requires Groups(groups) && n <= |groups|
  {
    if n == 0 then [] else RankedWords(style, groups[n - 1], n - 1) + Words(style, groups, n - 1)
  }

  // The words that have a text in a style.
  predicate Spellable(style: Style, word: nat) {
    || (word < 10 && !(style.OldKanji? && word == 0))
    || (!UsesDigits(style) && word in {10, 100, 1000})
    || word in {10000, 1_0000_0000, 1_0000_0000_0000, 1_0000_0000_0000_0000}
  }

  function WordText(style: Style, word: nat): char
    requires Spellable(style, word)
  {
    if word < 10 then DigitTable(style)[word]
    else if word == 10 then (if style.OldKanji? then '拾' else '十')
    else if word == 100 then '百'
    else if word == 1000 then (if style.OldKanji? then '阡' else '千')
    else if word == 10000 then (if style.OldKanji? then '萬' else '万')
    else if word == 1_0000_0000 then '億'
    else if word == 1_0000_0000_0000 then '兆'
    else '京'
  }

  predicate AllSpellable(style: Style, words: seq<nat>) {
    forall k :: 0 <= k < |words| ==> Spellable(style, words[k])
  }

  function Spelled(style: Style, words: seq<nat>): (text: string)
    requires AllSpellable(style, words)
    ensures |text| == |words|
  {
    seq(|words|, k requires 0 <= k < |words| => WordText(style, words[k]))
  }

  lemma SpelledConcat(style: Style, a: seq<nat>, b: seq<nat>)
    requires AllSpellable(style, a) && AllSpellable(style, b)
    ensures AllSpellable(style, a + b) && Spelled(style, a + b) == Spelled(style, a) + Spelled(style, b)
  {
    assert AllSpellable(style, a + b);
  }

  lemma ScaleSpellable(style: Style, rank: nat)
    requires 1 <= rank < MAX_RANKS
    ensures Spellable(style, Scale(rank)) && [WordText(style, Scale(rank))] == BiggerRankText(style, rank)
  {
    assert Scale(1) == 10000 * Scale(0);
    assert Scale(2) == 10000 * Scale(1);
    assert Scale(3) == 10000 * Scale(2);
    assert Scale(4) == 10000 * Scale(3);
  }

  lemma {:induction false} GroupSpellable(style: Style, group: seq<nat>, n: nat)
    requires |group| == 4 && AllDigits(group) && n <= 4
    ensures AllSpellable(style, PlacesWords(style, group, n)) || UsesDigits(style)
    ensures UsesDigits(style) ==> AllSpellable(style, group) && AllSpellable(style, AfterZeros(group))
  {
    if n > 0 {
      GroupSpellable(style, group, n - 1);
    }
  }

  lemma RankedSpellable(style: Style, group: seq<nat>, rank: nat)
    requires |group| == 4 && AllDigits(group) && rank < MAX_RANKS
    ensures AllSpellable(style, GroupWords(style, group)) && AllSpellable(style, RankedWords(style, group, rank))
  {
    GroupSpellable(style, group, 4);
    if rank > 0 {
      ScaleSpellable(style, rank);
    }
  }

  lemma SpellableConcat(style: Style, a: seq<nat>, b: seq<nat>)
    requires AllSpellable(style, a) && AllSpellable(style, b)
    ensures AllSpellable(style, a + b)
  {
    hide Spellable;
  }

  lemma {:induction false} WordsSpellable(style: Style, groups: seq<seq<nat>>, n: nat)
    requires Groups(groups) && n <= |groups| <= MAX_RANKS
    ensures AllSpellable(style, Words(style, groups, n))
  {
    hide RankedWords;
    hide Spellable;
    if n > 0 {
      WordsSpellable(style, groups, n - 1);
      RankedSpellable(style, groups[n - 1], n - 1);
      SpellableConcat(style, RankedWords(style, groups[n - 1], n - 1), Words(style, groups, n - 1));
    }
  }

  lemma Assoc(a: string, b: string, c: string)
    ensures a + b + c == a + (b + c)
  {
  }

  // ---- Decimal strings.

  predicate IsDigit(c: char) {
    '0' <= c <= '9'
  }

  predicate IsDecimal(s: string) {
    forall k :: 0 <= k < |s| ==> IsDigit(s[k])
  }

  function DigitOf(c: char): (d: nat)
    requires IsDigit(c)
    ensures d < 10
  {
    c as int - '0' as int
  }

  function Digits(s: string): (d: seq<nat>)
    requires IsDecimal(s)
    ensures |d| == |s| && AllDigits(d) && forall k :: 0 <= k < |s| ==> d[k] == DigitOf(s[k])
  {
    seq(|s|, k requires 0 <= k < |s| => DigitOf(s[k]))
  }

  function Zeros(n: nat): string {
    seq(n, _ => '0')
  }

  // Zeros in front up to a multiple of four digits.
  function Filled(s: string): (f: string)
    ensures |f| % 4 == 0 && |s| <= |f| < |s| + 4 && (IsDecimal(s) ==> IsDecimal(f))
  {
    Zeros((4 - |s| % 4) % 4) + s
  }

  // The groups of four, least significant first.
  function GroupsOf(s: string): (groups: seq<seq<nat>>)
    requires IsDecimal(s) && |s| % 4 == 0
    ensures |groups| == |s| / 4 && Groups(groups)
  {
    var d := Digits(s);
    seq(|s| / 4, k requires 0 <= k < |s| / 4 => d[|s| - 4 * (k + 1)..|s| - 4 * k])
  }

  // ---- The candidates.

  predicate StandsAt(text: string, sub: string, i: int) {
    0 <= i <= |text| - |sub| && text[i..i + |sub|] == sub
  }

  predicate Contains(text: string, sub: string) {
    exists i: int :: 0 <= i <= |text| && StandsAt(text, sub, i)
  }

  const OLD_TWO_TEN := "弐拾"

  // Every two and ten replaced by the one character for twenty.
  function WithTwenty(text: string): string {
    if |text| < 2 then text
    else if text[..2] == OLD_TWO_TEN then "廿" + WithTwenty(text[2..])
    else [text[0]] + WithTwenty(text[1..])
  }

  function TextOf(style: Style, groups: seq<seq<nat>>): string
    requires Groups(groups) && |groups| <= MAX_RANKS
  {
    WordsSpellable(style, groups, |groups|);
    Spelled(style, Words(style, groups, |groups|))
  }

  function Description(style: Style): string {
    match style
    case OldKanji => "大字"
    case Kanji => "漢数字"
    case _ => "数字"
  }

  function Candidate(style: Style, groups: seq<seq<nat>>): NumberString
    requires Groups(groups) && |groups| <= MAX_RANKS
  {
    NumberString(TextOf(style, groups), Description(style), style)
  }

  // The old style comes with the spellings that have a character of their own.
  function OldCandidates(filled: string, text: string): seq<NumberString> {
    [NumberString(text, "大字", OldKanji)]
    + (if Contains(text, OLD_TWO_TEN) then [NumberString(WithTwenty(text), "大字", OldKanji)] else [])
    + (if filled == "0010" then [NumberString("拾", "大字", OldKanji)] else [])
    + (if filled == "1000" then [NumberString("阡", "大字", OldKanji)] else [])
  }

  function CandidatesOf(style: Style, filled: string): seq<NumberString>
    requires IsDecimal(filled) && |filled| % 4 == 0 && |filled| <= 4 * MAX_RANKS
  {
    if UsesDigits(style) && |filled| == 4 then []
    else if style.OldKanji? then OldCandidates(filled, TextOf(OldKanji, GroupsOf(filled)))
    else [Candidate(style, GroupsOf(filled))]
  }

  const STYLES := [ArabicAndKanjiHalfwidth, ArabicAndKanjiFullwidth, Kanji, OldKanji]

  // The candidates of the first n styles.
  function Candidates(filled: string, n: nat): seq<NumberString>
    requires IsDecimal(filled) && |filled| % 4 == 0 && |filled| <= 4 * MAX_RANKS && n <= |STYLES|
  {
    if n == 0 then [] else Candidates(filled, n - 1) + CandidatesOf(STYLES[n - 1], filled)
  }

  const ZERO := NumberString("零", "大字", OldKanji)

  predicate AllZeros(s: string) {
    forall k :: 0 <= k < |s| ==> s[k] == '0'
  }

  function Converted(s: string): seq<NumberString> {
    if s == [] || !IsDecimal(s) then []
    else if AllZeros(s) then [ZERO]
    else if |s| > 4 * MAX_RANKS then []
    else Candidates(Filled(s), |STYLES|)
  }

  // ---- The source's procedure.

  method IsDecimalInteger(s: string) returns (b: bool)
    ensures b <==> s != [] && IsDecimal(s)
  {
    if s == [] {
      return false;
    }
    for i := 0 to |s|
      invariant forall k :: 0 <= k < i ==> IsDigit(s[k])
    {
      if !IsDigit(s[i]) {
        return false;
      }
    }
    b := true;
  }

  function PlaceText(style: Style, digit: nat, place: nat): string
    requires digit < 10 && place < 4
  {
    if digit == 0 then ""
    else (if style.OldKanji? || place == 3 || digit != 1 then DigitText(style, digit) else "") + RankText(style, 4 - place)
  }

  lemma PlaceSpelled(style: Style, digit: nat, place: nat)
    requires digit < 10 && place < 4 && !UsesDigits(style)
    ensures AllSpellable(style, PlaceWords(style, digit, place))
    ensures Spelled(style, PlaceWords(style, digit, place)) == PlaceText(style, digit, place)
  {
    hide DigitTable;
  }

  lemma OnePlaceMore(style: Style, group: seq<nat>, i: nat)
    requires |group| == 4 && AllDigits(group) && i < 4 && !UsesDigits(style)
    ensures AllSpellable(style, PlacesWords(style, group, i)) && AllSpellable(style, PlacesWords(style, group, i + 1))
    ensures Spelled(style, PlacesWords(style, group, i + 1)) ==
            Spelled(style, PlacesWords(style, group, i)) + PlaceText(style, group[i], i)
  {
    hide PlaceText;
    hide PlaceWords;
    hide Spelled;
    GroupSpellable(style, group, i);
    PlaceSpelled(style, group[i], i);
    SpelledConcat(style, PlacesWords(style, group, i), PlaceWords(style, group[i], i));
  }

  lemma NothingSpelled(style: Style, group: seq<nat>, n: nat)
    requires |group| == 4 && n <= 4
    ensures Spelled(style, []) == "" && PlacesWords(style, group, 0) == [] && group[n..n] == [] && group[n..4] == group[n..]
  {
  }

  lemma OneDigitMore(style: Style, group: seq<nat>, i: nat)
    requires |group| == 4 && AllDigits(group) && ZeroCount(group) <= i < 4 && UsesDigits(style)
    ensures Spelled(style, group[ZeroCount(group)..i + 1]) == Spelled(style, group[ZeroCount(group)..i]) + DigitText(style, group[i])
  {
    hide DigitTable;
    hide ZeroCount;
    var n := ZeroCount(group);
    assert group[n..i + 1] == group[n..i] + [group[i]];
  }

  // The text of the first n digits of a group.
  function TextSoFar(style: Style, group: seq<nat>, n: nat): string
    requires |group| == 4 && AllDigits(group) && n <= 4
  {
    if n == 0 then ""
    else
      TextSoFar(style, group, n - 1)
      + (if !UsesDigits(style) then PlaceText(style, group[n - 1], n - 1)
         else if n - 1 < ZeroCount(group) then "" else DigitText(style, group[n - 1]))
  }

  lemma {:induction false} PlacesTextSoFar(style: Style, group: seq<nat>, n: nat)
    requires |group| == 4 && AllDigits(group) && n <= 4 && !UsesDigits(style)
    ensures AllSpellable(style, PlacesWords(style, group, n)) && TextSoFar(style, group, n) == Spelled(style, PlacesWords(style, group, n))
  {
    hide PlacesWords;
    hide PlaceText;
    hide Spelled;
    hide Spellable;
    NothingSpelled(style, group, 0);
    if n > 0 {
      PlacesTextSoFar(style, group, n - 1);
      OnePlaceMore(style, group, n - 1);
    }
  }

  lemma {:induction false} DigitsTextSoFar(style: Style, group: seq<nat>, n: nat)
    requires |group| == 4 && AllDigits(group) && n <= 4 && UsesDigits(style)
    ensures AllSpellable(style, group)
    ensures var zeros := ZeroCount(group);
            TextSoFar(style, group, n) == if n <= zeros then "" else Spelled(style, group[zeros..n])
  {
    GroupSpellable(style, group, 0);
    hide Spellable;
    hide PlaceText;
    hide DigitText;
    hide Spelled;
    hide ZeroCount;
    NothingSpelled(style, group, ZeroCount(group));
    if n > 0 {
      DigitsTextSoFar(style, group, n - 1);
      if ZeroCount(group) < n {
        OneDigitMore(style, group, n - 1);
      }
    }
  }

  lemma SegmentSpelled(style: Style, group: seq<nat>)
    requires |group| == 4 && AllDigits(group)
    ensures AllSpellable(style, GroupWords(style, group)) && TextSoFar(style, group, 4) == Spelled(style, GroupWords(style, group))
  {
    hide TextSoFar;
    hide PlacesWords;
    hide Spelled;
    hide ZeroCount;
    GroupSpellable(style, group, 4);
    hide Spellable;
    if UsesDigits(style) {
      DigitsTextSoFar(style, group, 4);
      NothingSpelled(style, group, ZeroCount(group));
    } else {
      PlacesTextSoFar(style, group, 4);
    }
  }

  lemma TextBegins(style: Style, group: seq<nat>)
    requires |group| == 4 && AllDigits(group)
    ensures TextSoFar(style, group, 0) == ""
  {
  }

  lemma TextStep(style: Style, group: seq<nat>, i: nat)
    requires |group| == 4 && AllDigits(group) && i < 4
    ensures TextSoFar(style, group, i + 1) ==
            TextSoFar(style, group, i)
            + (if !UsesDigits(style) then PlaceText(style, group[i], i)
               else if i < ZeroCount(group) then "" else DigitText(style, group[i]))
    ensures TextSoFar(style, group, i) + "" == TextSoFar(style, group, i)
  {
    hide PlaceText;
    hide DigitText;
    hide ZeroCount;
  }

  method SegmentText(style: Style, segment: string) returns (text: string)
    requires |segment| == 4 && IsDecimal(segment)
    ensures AllSpellable(style, GroupWords(style, Digits(segment)))
    ensures text == Spelled(style, GroupWords(style, Digits(segment)))
  {
    hide DigitText;
    hide RankText;
    hide ZeroCount;
    hide GroupWords;
    ghost var group := Digits(segment);
    SegmentSpelled(style, group);
    hide Spellable;
    hide Spelled;
    hide AllSpellable;
    hide TextSoFar;
    hide Digits;
    TextBegins(style, group);
    text := "";
    var leading := true;
    for i := 0 to 4
      invariant leading <==> i <= ZeroCount(group)
      invariant text == TextSoFar(style, group, i)
    {
      TextStep(style, group, i);
      if leading && segment[i] == '0' {
        continue;
      }
      leading := false;
      if UsesDigits(style) {
        text := text + DigitText(style, DigitOf(segment[i]));
      } else {
        if segment[i] == '0' {
          continue;
        }
        ghost var before := text;
        if style.OldKanji? || i == 3 || segment[i] != '1' {
          text := text + DigitText(style, DigitOf(segment[i]));
        }
        text := text + RankText(style, 4 - i);
        Assoc(before, if style.OldKanji? || i == 3 || group[i] != 1 then DigitText(style, group[i]) else "", RankText(style, 4 - i));
      }
    }
  }

  predicate SegmentsOf(ranked: seq<string>, s: string) {
    |s| == 4 * |ranked| && forall k :: 0 <= k < |ranked| ==> ranked[k] == s[|s| - 4 * (k + 1)..|s| - 4 * k]
  }

  method Segments(s: string) returns (ranked: seq<string>)
    requires |s| % 4 == 0
    ensures SegmentsOf(ranked, s)
  {
    ranked := [];
    var i := |s| - 4;
    while i >= 0
      invariant i == |s| - 4 * (|ranked| + 1) && -4 <= i
      invariant forall k :: 0 <= k < |ranked| ==> ranked[k] == s[|s| - 4 * (k + 1)..|s| - 4 * k]
    {
      ranked := ranked + [s[i..i + 4]];
      i := i - 4;
    }
  }

  lemma SegmentDigits(ranked: seq<string>, s: string, k: nat)
    requires SegmentsOf(ranked, s) && IsDecimal(s) && k < |ranked|
    ensures |ranked[k]| == 4 && IsDecimal(ranked[k]) && Digits(ranked[k]) == GroupsOf(s)[k]
  {
    var from := |s| - 4 * (k + 1);
    forall i | 0 <= i < 4 ensures ranked[k][i] == s[from + i] {
    }
    assert GroupsOf(s)[k] == Digits(s)[from..from + 4];
  }

  // The words of one more group, and the text they add.
  lemma OneGroupMore(style: Style, groups: seq<seq<nat>>, rank: nat)
    requires Groups(groups) && rank < |groups| <= MAX_RANKS
    ensures AllSpellable(style, Words(style, groups, rank)) && AllSpellable(style, Words(style, groups, rank + 1))
    ensures AllSpellable(style, GroupWords(style, groups[rank]))
    ensures var segment := Spelled(style, GroupWords(style, groups[rank]));
            Spelled(style, Words(style, groups, rank + 1)) ==
            (if segment == "" then "" else segment + BiggerRankText(style, rank)) + Spelled(style, Words(style, groups, rank))
  {
    hide GroupWords;
    hide WordText;
    hide BiggerRankText;
    var group := GroupWords(style, groups[rank]);
    WordsSpellable(style, groups, rank);
    RankedSpellable(style, groups[rank], rank);
    SpelledConcat(style, RankedWords(style, groups[rank], rank), Words(style, groups, rank));
    if rank > 0 {
      ScaleSpellable(style, rank);
      SpelledConcat(style, group, [Scale(rank)]);
      assert Spelled(style, [Scale(rank)]) == BiggerRankText(style, rank);
    } else {
      assert BiggerRankText(style, 0) == "" by {
        NoTextForLowestRank(style);
      }
    }
  }

  lemma NoTextForLowestRank(style: Style)
    ensures BiggerRankText(style, 0) == ""
  {
  }

  method VariationText(style: Style, ranked: seq<string>, ghost s: string) returns (text: string)
    requires IsDecimal(s) && |s| % 4 == 0 && SegmentsOf(ranked, s) && |ranked| <= MAX_RANKS
    ensures text == TextOf(style, GroupsOf(s))
  {
    hide Words;
    hide GroupWords;
    hide GroupsOf;
    hide BiggerRankText;
    hide Spellable;
    hide Spelled;
    hide IsDecimal;
    ghost var groups := GroupsOf(s);
    WordsSpellable(style, groups, |groups|);
    text := "";
    var rank := |ranked|;
    while rank > 0
      invariant 0 <= rank <= |ranked|
      invariant AllSpellable(style, Words(style, groups, rank))
      invariant text + Spelled(style, Words(style, groups, rank)) == TextOf(style, groups)
    {
      rank := rank - 1;
      SegmentDigits(ranked, s, rank);
      OneGroupMore(style, groups, rank);
      var segment := SegmentText(style, ranked[rank]);
      if segment != "" {
        Assoc(text, segment + BiggerRankText(style, rank), Spelled(style, Words(style, groups, rank)));
        Assoc(text, segment, BiggerRankText(style, rank));
        text := text + segment + BiggerRankText(style, rank);
      }
    }
    NoWords(style, groups);
    assert Spelled(style, []) == "";
  }

  lemma NoWords(style: Style, groups: seq<seq<nat>>)
    requires Groups(groups)
    ensures Words(style, groups, 0) == []
  {
  }

  lemma TwentyStep(text: string, i: nat)
    requires i < |text|
    ensures WithTwenty(text[i..]) ==
            if i + 2 <= |text| && text[i..i + 2] == OLD_TWO_TEN then "廿" + WithTwenty(text[i + 2..])
            else [text[i]] + WithTwenty(text[i + 1..])
  {
    assert text[i..][1..] == text[i + 1..];
    if i + 2 <= |text| {
      assert text[i..][..2] == text[i..i + 2] && text[i..][2..] == text[i + 2..];
    } else {
      assert text[i..] == [text[i]] && text[i + 1..] == [];
    }
  }

  // absl::StrReplaceAll, for the one replacement made here.
  method ReplaceTwoTen(text: string) returns (replaced: string)
    ensures replaced == WithTwenty(text)
  {
    replaced := "";
    var i := 0;
    assert text[0..] == text;
    while i < |text|
      invariant 0 <= i <= |text|
      invariant replaced + WithTwenty(text[i..]) == WithTwenty(text)
    {
      TwentyStep(text, i);
      hide WithTwenty;
      ghost var twenty := i + 2 <= |text| && text[i..i + 2] == OLD_TWO_TEN;
      Assoc(replaced, if twenty then "廿" else [text[i]], WithTwenty(text[if twenty then i + 2 else i + 1..]));
      if i + 2 <= |text| && text[i..i + 2] == OLD_TWO_TEN {
        replaced, i := replaced + "廿", i + 2;
      } else {
        replaced, i := replaced + [text[i]], i + 1;
      }
    }
    assert text[i..] == [];
  }

  // absl::StrContains.
  method StrContains(text: string, sub: string) returns (b: bool)
    ensures b <==> Contains(text, sub)
  {
    b := false;
    var i := 0;
    while i + |sub| <= |text|
      invariant 0 <= i <= |text| + 1
      invariant forall j: int :: 0 <= j < i && j <= |text| ==> !StandsAt(text, sub, j)
    {
      if text[i..i + |sub|] == sub {
        assert StandsAt(text, sub, i);
        return true;
      }
      i := i + 1;
    }
  }

  method AppendVariation(style: Style, ranked: seq<string>, filled: string, output: seq<NumberString>)
    returns (extended: seq<NumberString>)
    requires IsDecimal(filled) && |filled| % 4 == 0 && |filled| <= 4 * MAX_RANKS && SegmentsOf(ranked, filled)
    ensures extended == output + CandidatesOf(style, filled)
  {
    hide IsDecimal;
    hide GroupsOf;
    hide TextOf;
    hide Contains;
    hide WithTwenty;
    extended := output;
    if |ranked| == 1 && UsesDigits(style) {
      return;
    }
    var result := VariationText(style, ranked, filled);
    extended := extended + [NumberString(result, Description(style), style)];
    if style.OldKanji? {
      var twoTen := StrContains(result, OLD_TWO_TEN);
      if twoTen {
        var replaced := ReplaceTwoTen(result);
        extended := extended + [NumberString(replaced, Description(style), style)];
      }
      if filled == "0010" {
        extended := extended + [NumberString("拾", Description(style), style)];
      }
      if filled == "1000" {
        extended := extended + [NumberString("阡", Description(style), style)];
      }
    }
  }

  // The loop over the variations.
  method AppendVariations(filled: string, output: seq<NumberString>) returns (extended: seq<NumberString>)
    requires IsDecimal(filled) && |filled| % 4 == 0 && |filled| <= 4 * MAX_RANKS
    ensures extended == output + Candidates(filled, |STYLES|)
  {
    hide CandidatesOf;
    hide IsDecimal;
    extended := output;
    var ranked := Segments(filled);
    for variation := 0 to |STYLES|
      invariant extended == output + Candidates(filled, variation)
    {
      extended := AppendVariation(STYLES[variation], ranked, filled, extended);
    }
  }

  method ArabicToKanji(inputNum: string, output: seq<NumberString>) returns (ok: bool, extended: seq<NumberString>)
    ensures extended == output + Converted(inputNum)
    ensures ok <==> Converted(inputNum) != []
  {
    hide Candidates;
    hide IsDecimal;
    extended := output;
    ok := IsDecimalInteger(inputNum);
    if !ok {
      return;
    }
    var i := 0;
    while i < |inputNum| && inputNum[i] == '0'
      invariant 0 <= i <= |inputNum| && forall k :: 0 <= k < i ==> inputNum[k] == '0'
    {
      i := i + 1;
    }
    if i == |inputNum| {
      extended := extended + [ZERO];
      return true, extended;
    }
    if MAX_RANKS * 4 < |inputNum| {
      return false, extended;
    }
    var filled := Zeros((4 - |inputNum| % 4) % 4) + inputNum;
    SomeCandidate(Filled(inputNum));
    extended := AppendVariations(filled, extended);
    ok := true;
  }

  lemma SomeCandidate(filled: string)
    requires IsDecimal(filled) && |filled| % 4 == 0 && |filled| <= 4 * MAX_RANKS
    ensures Candidates(filled, |STYLES|) != []
  {
    assert CandidatesOf(STYLES[3], filled) != [];
    hide CandidatesOf;
    assert Candidates(filled, 4) == Candidates(filled, 3) + CandidatesOf(STYLES[3], filled);
  }
}
