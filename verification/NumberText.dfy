// src/base/number_util.cc: from numeral text to its value in Arabic digits, and
// that this undoes the spelling.
module NumberText {
  import opened Options
  import opened NumberParser
  import opened NumberReading
  import opened NumberPrinter
  import opened NumberRoundTrip

  // ---- Text as number words.

  // The character's number, by data/preedit/kanjinumber-arabicnumber.tsv.
  function WordOf(c: char): Option<nat> {
    if '0' <= c <= '9' then Some(c as int - '0' as int)
    else if '０' <= c <= '９' then Some(c as int - '０' as int)
    else
      match c
      case '零' => Some(0)
      case '一' => Some(1)
      case '二' => Some(2)
      case '三' => Some(3)
      case '四' => Some(4)
      case '五' => Some(5)
      case '六' => Some(6)
      case '七' => Some(7)
      case '八' => Some(8)
      case '九' => Some(9)
      case '十' => Some(10)
      case '百' => Some(100)
      case '千' => Some(1000)
      case '万' => Some(10000)
      case '億' => Some(1_0000_0000)
      case '兆' => Some(1_0000_0000_0000)
      case '京' => Some(1_0000_0000_0000_0000)
      case '壱' => Some(1)
      case '弐' => Some(2)
      case '参' => Some(3)
      case '拾' => Some(10)
      case '廿' => Some(20)
      case '卅' => Some(30)
      case '卌' => Some(40)
      case _ => None
  }

  function WordsOf(text: string): (w: Option<seq<nat>>)
    ensures w.Some? ==> |w.value| == |text|
  {
    if text == "" then Some([])
    else
      var front := WordsOf(text[..|text| - 1]);
      var last := WordOf(text[|text| - 1]);
      if front.None? || last.None? then None else Some(front.value + [last.value])
  }

  // Arabic digits, of either width, become Kanji; other characters stay.
  function KanjiOf(c: char): char {
    if '0' <= c <= '9' then DigitTable(Kanji)[c as int - '0' as int]
    else if '０' <= c <= '９' then DigitTable(Kanji)[c as int - '０' as int]
    else c
  }

  function KanjiText(text: string): string {
    seq(|text|, i requires 0 <= i < |text| => KanjiOf(text[i]))
  }

  // The digits of a number, as "%u" prints them.
  function DecimalText(n: nat): string {
    (if n < 10 then "" else DecimalText(n / 10)) + [DigitTable(ArabicAndKanjiHalfwidth)[n % 10]]
  }

  // The zeros written before a number whose words begin with zeros.
  function ZerosKept(words: seq<nat>): nat {
    if ZeroCount(words) == |words| && words != [] then |words| - 1 else ZeroCount(words)
  }

  datatype Normal = Normal(kanji: string, arabic: string)

  function NormalText(text: string, trimLeadingZeros: bool): Option<Normal> {
    var words := WordsOf(text);
    if words.None? then None
    else
      var r := Normalized(words.value);
      if r.Failed? then None
      else Some(Normal(KanjiText(text), (if trimLeadingZeros then "" else Zeros(ZerosKept(words.value))) + DecimalText(r.value)))
  }

  lemma OneWordMore(text: string, i: nat)
    requires i < |text|
    ensures WordsOf(text[..i + 1]) ==
            if WordsOf(text[..i]).None? || WordOf(text[i]).None? then None
            else Some(WordsOf(text[..i]).value + [WordOf(text[i]).value])
  {
    hide WordOf;
    assert text[..i + 1][..i] == text[..i];
  }

  lemma {:induction false} UnknownWord(text: string, n: nat)
    requires n <= |text| && WordsOf(text[..n]).None?
    ensures WordsOf(text).None?
    decreases |text| - n
  {
    hide WordOf;
    if n < |text| {
      OneWordMore(text, n);
      UnknownWord(text, n + 1);
    } else {
      assert text[..n] == text;
    }
  }

  lemma WordFits(c: char)
    ensures WordOf(c).Some? ==> WordOf(c).value < WORD_LIMIT
  {
  }

  method NormalizeNumbers(input: string, trimLeadingZeros: bool) returns (ok: bool, kanji: string, arabic: string)
    ensures ok <==> NormalText(input, trimLeadingZeros).Some?
    ensures ok ==> NormalText(input, trimLeadingZeros) == Some(Normal(kanji, arabic))
  {
    hide WordOf;
    hide KanjiOf;
    hide Normalized;
    hide DecimalText;
    kanji, arabic := "", "";
    var numbers: seq<u64> := [];
    for i := 0 to |input|
      invariant WordsOf(input[..i]) == Some(numbers)
      invariant kanji == KanjiText(input)[..i]
    {
      var n := WordOf(input[i]);
      OneWordMore(input, i);
      if n.None? {
        UnknownWord(input, i + 1);
        return false, kanji, arabic;
      }
      WordFits(input[i]);
      kanji := kanji + [KanjiOf(input[i])];
      numbers := numbers + [n.value];
    }
    assert input[..|input|] == input && KanjiText(input)[..|input|] == KanjiText(input);
    if numbers == [] {
      NothingNormalized();
      return false, kanji, arabic;
    }
    var n;
    ok, n := NormalizeNumbersHelper(numbers);
    if !ok {
      return;
    }
    if !trimLeadingZeros {
      var zeros := CountZeros(numbers);
      if zeros == |numbers| {
        zeros := zeros - 1;
      }
      arabic := Zeros(zeros);
    }
    arabic := arabic + DecimalText(n);
  }

  lemma NothingNormalized()
    ensures Normalized([]) == Failed
  {
  }

  method CountZeros(numbers: seq<u64>) returns (n: nat)
    ensures n == ZeroCount(numbers)
  {
    n := 0;
    while n < |numbers| && numbers[n] == 0
      invariant n <= |numbers| && forall k :: 0 <= k < n ==> numbers[k] == 0
    {
      n := n + 1;
    }
  }

  // ---- The words of the spelled text.

  lemma WordSpelled(style: Style, word: nat)
    requires Spellable(style, word) && !style.OldKanji? && !(style.Kanji? && word == 0)
    ensures WordOf(WordText(style, word)) == Some(word)
    ensures style.Kanji? ==> KanjiOf(WordText(style, word)) == WordText(style, word)
  {
  }

  lemma {:induction false} WordsSpelled(style: Style, words: seq<nat>)
    requires AllSpellable(style, words) && !style.OldKanji? && (style.Kanji? ==> 0 !in words)
    ensures WordsOf(Spelled(style, words)) == Some(words)
    ensures style.Kanji? ==> KanjiText(Spelled(style, words)) == Spelled(style, words)
  {
    hide WordOf;
    hide WordText;
    hide KanjiOf;
    hide Spellable;
    forall k | 0 <= k < |words| ensures style.Kanji? ==> KanjiOf(WordText(style, words[k])) == WordText(style, words[k]) {
      WordSpelled(style, words[k]);
    }
    if words != [] {
      var front, last := words[..|words| - 1], words[|words| - 1];
      WordSpelled(style, last);
      WordsSpelled(style, front);
      assert Spelled(style, words)[..|words| - 1] == Spelled(style, front);
      assert words == front + [last];
    }
  }

  // ---- The digits printed again.

  // A decimal string without its leading zeros.
  function Stripped(s: string): string
    requires IsDecimal(s)
  {
    s[ZeroCount(Digits(s))..]
  }

  lemma DigitPrinted(c: char)
    requires IsDigit(c)
    ensures DigitTable(ArabicAndKanjiHalfwidth)[DigitOf(c)] == c
  {
  }

  lemma LeadingDigitCounts(d: seq<nat>)
    requires d != [] && d[0] != 0
    ensures Base10(d) > 0
  {
    assert d[..1] == [d[0]];
    Base10Digit(d[0]);
    Base10Prefix(d, 1);
  }

  lemma LastDigitPrinted(n: nat, d: nat)
    requires d < 10
    ensures DecimalText(n * 10 + d) == (if n == 0 then "" else DecimalText(n)) + [DigitTable(ArabicAndKanjiHalfwidth)[d]]
  {
    hide DigitTable;
    assert (n * 10 + d) / 10 == n && (n * 10 + d) % 10 == d;
  }

  lemma LastDigitCounts(front: string, c: char)
    requires IsDecimal(front) && IsDigit(c)
    ensures IsDecimal(front + [c]) && ValueOf(front + [c]) == ValueOf(front) * 10 + DigitOf(c)
  {
    var s := front + [c];
    assert IsDecimal(s);
    assert Digits(s)[..|front|] == Digits(front);
  }

  lemma OneDigitPrinted(front: string, c: char)
    requires IsDecimal(front) && IsDigit(c) && (front == "" ==> c != '0')
    requires front != "" ==> DecimalText(ValueOf(front)) == front && ValueOf(front) > 0
    ensures IsDecimal(front + [c]) && DecimalText(ValueOf(front + [c])) == front + [c] && ValueOf(front + [c]) > 0
  {
    hide DigitTable;
    hide DecimalText;
    hide ValueOf;
    DigitPrinted(c);
    LastDigitCounts(front, c);
    LastDigitPrinted(ValueOf(front), DigitOf(c));
    if front == "" {
      NoDigits();
    }
  }

  lemma {:induction false} DecimalPrinted(s: string)
    requires IsDecimal(s) && s != "" && s[0] != '0'
    ensures DecimalText(ValueOf(s)) == s && ValueOf(s) > 0
  {
    hide DecimalText;
    hide ValueOf;
    var front, last := s[..|s| - 1], s[|s| - 1];
    if front != "" {
      DecimalPrinted(front);
    }
    OneDigitPrinted(front, last);
    assert s == front + [last];
  }

  lemma NoDigits()
    ensures ValueOf("") == 0
  {
    NoValueInZeros(Digits(""));
  }

  lemma StrippedPrinted(s: string)
    requires IsDecimal(s) && ValueOf(s) > 0
    ensures DecimalText(ValueOf(s)) == Stripped(s)
  {
    hide Base10;
    var n := ZeroCount(Digits(s));
    assert Digits(Stripped(s)) == AfterZeros(Digits(s));
    Base10Zeros(Digits(s));
    if n == |s| {
      NoValueInZeros(Digits(s));
      assert false;
    }
    assert Digits(s)[n] != 0;
    DecimalPrinted(Stripped(s));
  }

  lemma PositiveUnlessZeros(s: string)
    requires IsDecimal(s)
    ensures ValueOf(s) == 0 <==> AllZeros(s)
  {
    hide Base10;
    var d := Digits(s);
    var n := ZeroCount(d);
    Base10Zeros(d);
    if n < |s| {
      LeadingDigitCounts(AfterZeros(d));
      assert d[n] == DigitOf(s[n]);
    } else {
      NoValueInZeros(d);
      forall k | 0 <= k < |s| ensures s[k] == '0' {
        assert d[k] == DigitOf(s[k]);
      }
    }
  }

  // ---- The round trip.

  predicate NoZero(style: Style, words: seq<nat>) {
    (words != [] ==> words[0] != 0) && (!UsesDigits(style) ==> 0 !in words)
  }

  lemma RankedNoZero(style: Style, g: seq<nat>, rank: nat)
    requires |g| == 4
    ensures NoZero(style, RankedWords(style, g, rank))
  {
    hide PlacesWords;
    hide PlaceWords;
    hide Scale;
    hide ZeroCount;
    if !UsesDigits(style) {
      FourPlaces(style, g);
      PlaceNoZero(style, g[0], 0);
      PlaceNoZero(style, g[1], 1);
      PlaceNoZero(style, g[2], 2);
      PlaceNoZero(style, g[3], 3);
    }
  }

  lemma PlaceNoZero(style: Style, digit: nat, place: nat)
    requires place < 4
    ensures 0 !in PlaceWords(style, digit, place)
  {
  }

  // The words begin with a word that is not zero, and Kanji words contain no zero.
  lemma {:induction false} NoLeadingZero(style: Style, groups: seq<seq<nat>>, n: nat)
    requires Groups(groups) && n <= |groups|
    ensures NoZero(style, Words(style, groups, n))
  {
    hide RankedWords;
    if n > 0 {
      NoLeadingZero(style, groups, n - 1);
      RankedNoZero(style, groups[n - 1], n - 1);
    }
  }

  lemma WordsNormalized(style: Style, groups: seq<seq<nat>>)
    requires Groups(groups) && 1 <= |groups| <= MAX_RANKS && !style.OldKanji? && GroupsValue(groups, |groups|) > 0
    ensures var v := GroupsValue(groups, |groups|);
            Normalized(Words(style, groups, |groups|)) == if v < WORD_LIMIT then Value(v, []) else Failed
  {
    hide InterpretFrom;
    hide Words;
    hide Base10;
    hide GroupsValue;
    hide Read;
    hide Groups;
    var n, words := |groups|, Words(style, groups, |groups|);
    NoWordsForZero(style, groups, n);
    if AllDigits(words) {
      WordsReading(style, 0, groups, n);
      ReadDigits(NOTHING, words);
    } else {
      LargestScale(n - 1);
      WordsInterpreted(style, groups, n, 0, WORD_LIMIT - 1);
    }
  }

  lemma LargestScale(rank: nat)
    requires rank < MAX_RANKS
    ensures Scale(rank) < WORD_LIMIT - 1
  {
    if rank > 0 {
      ScaleSpellable(Kanji, rank);
    }
  }

  // Reading back any spelling of a number but the old style's gives its digits,
  // without leading zeros; it fails exactly when the number needs more than 64 bits.
  lemma RoundTrip(style: Style, s: string, trimLeadingZeros: bool)
    requires s != "" && IsDecimal(s) && !AllZeros(s) && |s| <= 4 * MAX_RANKS && !style.OldKanji?
    ensures var text := TextOf(style, GroupsOf(Filled(s)));
            NormalText(text, trimLeadingZeros) ==
            if ValueOf(s) < WORD_LIMIT then Some(Normal(KanjiText(text), Stripped(s))) else None
    ensures style.Kanji? ==>
              var text := TextOf(style, GroupsOf(Filled(s))); KanjiText(text) == text
  {
    hide Words;
    hide GroupsValue;
    hide GroupsOf;
    hide Filled;
    hide Normalized;
    hide ValueOf;
    hide DecimalText;
    hide KanjiText;
    var groups := GroupsOf(Filled(s));
    var words := Words(style, groups, |groups|);
    GroupsValueOf(s);
    PositiveUnlessZeros(s);
    WordsSpellable(style, groups, |groups|);
    NoLeadingZero(style, groups, |groups|);
    WordsSpelled(style, words);
    WordsNormalized(style, groups);
    StrippedPrinted(s);
    assert ZerosKept(words) == 0 && Zeros(0) == "" && "" + Stripped(s) == Stripped(s);
  }

  // Every candidate but the old style's, for every input.
  lemma CandidatesRoundTrip(s: string, c: NumberString, trimLeadingZeros: bool)
    requires c in Converted(s) && !c.style.OldKanji?
    ensures IsDecimal(s)
    ensures NormalText(c.value, trimLeadingZeros) ==
            if ValueOf(s) < WORD_LIMIT then Some(Normal(KanjiText(c.value), Stripped(s))) else None
  {
    hide TextOf;
    var f := Filled(s);
    assert c in Candidates(f, 4);
    var i := CandidateStyle(f, 4, c);
    RoundTrip(STYLES[i], s, trimLeadingZeros);
  }

  lemma {:induction false} CandidateStyle(filled: string, n: nat, c: NumberString) returns (i: nat)
    requires IsDecimal(filled) && |filled| % 4 == 0 && |filled| <= 4 * MAX_RANKS && n <= |STYLES|
    requires c in Candidates(filled, n)
    ensures i < n && c in CandidatesOf(STYLES[i], filled)
  {
    hide CandidatesOf;
    if c in CandidatesOf(STYLES[n - 1], filled) {
      i := n - 1;
    } else {
      i := CandidateStyle(filled, n - 1, c);
    }
  }

  // Zero alone is spelled in one way, and read back as zero.
  lemma ZeroRoundTrip(s: string, trimLeadingZeros: bool)
    requires s != "" && AllZeros(s)
    ensures Converted(s) == [ZERO] && NormalText(ZERO.value, trimLeadingZeros) == Some(Normal("零", "0"))
  {
    assert WordsOf("零") == Some([0]) by {
      assert WordsOf("") == Some([]);
      OneWordMore("零", 0);
      assert "零"[..0] == "" && "零"[..1] == "零";
      assert [] + [0] == [0];
    }
    assert Base10([0]) == 0 by {
      Base10Digit(0);
    }
    assert ZeroCount([0]) == 1;
    assert KanjiText("零") == "零";
    assert Zeros(0) == "" && DecimalText(0) == "0";
  }

  // ---- Digits.

  lemma DigitWord(c: char)
    requires IsDigit(c)
    ensures WordOf(c) == Some(DigitOf(c))
  {
  }

  lemma {:induction false} DigitWords(s: string)
    requires IsDecimal(s)
    ensures WordsOf(s) == Some(Digits(s))
  {
    hide WordOf;
    if s != "" {
      var front := s[..|s| - 1];
      DigitWords(front);
      DigitWord(s[|s| - 1]);
      assert Digits(s) == Digits(front) + [DigitOf(s[|s| - 1])];
    }
  }

  lemma ZerosStay(s: string)
    requires IsDecimal(s)
    ensures s == Zeros(ZeroCount(Digits(s))) + Stripped(s)
  {
    hide ZeroCount;
    var n := ZeroCount(Digits(s));
    forall k | 0 <= k < n ensures s[k] == '0' {
      assert Digits(s)[k] == DigitOf(s[k]);
    }
  }

  lemma NothingStripped(s: string)
    requires IsDecimal(s) && AllZeros(s)
    ensures ZeroCount(Digits(s)) == |s|
  {
    hide ZeroCount;
    forall k | 0 <= k < |s| ensures Digits(s)[k] == 0 {
    }
  }

  lemma ZeroPrinted()
    ensures DecimalText(0) == "0"
  {
  }

  lemma SomeLeft(s: string)
    requires IsDecimal(s) && !AllZeros(s)
    ensures ZeroCount(Digits(s)) < |s|
  {
    hide ZeroCount;
    if ZeroCount(Digits(s)) == |s| {
      ZerosStay(s);
    }
  }

  lemma DigitsNormal(s: string, trimLeadingZeros: bool)
    requires s != "" && IsDecimal(s) && ValueOf(s) < WORD_LIMIT
    ensures NormalText(s, trimLeadingZeros) ==
            Some(Normal(KanjiText(s), (if trimLeadingZeros then "" else Zeros(ZerosKept(Digits(s)))) + DecimalText(ValueOf(s))))
  {
    DigitWords(s);
    assert Normalized(Digits(s)) == Value(ValueOf(s), []);
    hide WordsOf;
    hide KanjiText;
    hide ZerosKept;
    hide Normalized;
    hide Base10;
    hide DecimalText;
    hide Digits;
  }

  lemma ZerosPrinted(s: string)
    requires s != "" && IsDecimal(s)
    ensures Zeros(ZerosKept(Digits(s))) + DecimalText(ValueOf(s)) == s
    ensures DecimalText(ValueOf(s)) == if AllZeros(s) then "0" else Stripped(s)
  {
    PositiveUnlessZeros(s);
    ZerosStay(s);
    ZeroPrinted();
    hide ZeroCount;
    hide DecimalText;
    hide Base10;
    if AllZeros(s) {
      NothingStripped(s);
      assert Zeros(|s| - 1) + "0" == s;
    } else {
      SomeLeft(s);
      StrippedPrinted(s);
    }
  }

  // Digits come back as they are written, or without the zeros in front when these are
  // to be trimmed.
  lemma DigitsComeBack(s: string)
    requires s != "" && IsDecimal(s) && ValueOf(s) < WORD_LIMIT
    ensures NormalText(s, false) == Some(Normal(KanjiText(s), s))
    ensures NormalText(s, true) == Some(Normal(KanjiText(s), if AllZeros(s) then "0" else Stripped(s)))
  {
    DigitsNormal(s, false);
    DigitsNormal(s, true);
    ZerosPrinted(s);
    hide *;
    assert "" + DecimalText(ValueOf(s)) == DecimalText(ValueOf(s));
  }

  // The Kanji of digits of either width.
  lemma DigitsInKanji()
    ensures KanjiText("0123456789") == "〇一二三四五六七八九" && KanjiText("０１２３４５６７８９") == "〇一二三四五六七八九"
  {
  }
}
