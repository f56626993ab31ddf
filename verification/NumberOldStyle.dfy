// The old-style numerals (大字). Two of their characters are not in the table that
// numerals are read by, so these spellings are not read back; what they mean is
// still the number, in every spelling that is offered.
module NumberOldStyle {
  import opened Options
  import opened NumberReading
  import opened NumberPrinter
  import opened NumberRoundTrip
  import NumberText

  function WordMeant(c: char): Option<nat> {
    if c == '阡' then Some(1000) else if c == '萬' then Some(10000) else NumberText.WordOf(c)
  }

  ghost predicate Means(text: string, words: seq<nat>) {
    |text| == |words| && forall k :: 0 <= k < |text| ==> WordMeant(text[k]) == Some(words[k])
  }

  lemma SpelledMeans(style: Style, words: seq<nat>)
    requires AllSpellable(style, words) && (style.Kanji? ==> 0 !in words)
    ensures Means(Spelled(style, words), words)
  {
    forall k | 0 <= k < |words| ensures WordMeant(WordText(style, words[k])) == Some(words[k]) {
      OneSpelledMeans(style, words[k]);
    }
  }

  lemma OneSpelledMeans(style: Style, word: nat)
    requires Spellable(style, word) && !(style.Kanji? && word == 0)
    ensures WordMeant(WordText(style, word)) == Some(word)
  {
  }

  // ---- Twenty in one character.

  function Twenties(words: seq<nat>): seq<nat> {
    if |words| < 2 then words
    else if words[0] == 2 && words[1] == 10 then [20] + Twenties(words[2..])
    else [words[0]] + Twenties(words[1..])
  }

  // No digit follows a digit.
  predicate Spaced(words: seq<nat>) {
    forall k :: 0 <= k < |words| - 1 && words[k] < 10 ==> words[k + 1] >= 10
  }

  lemma {:induction false} TwentiesRead(s: Sum, words: seq<nat>)
    requires Spaced(words) && (s.run == 0 || words == [] || words[0] >= 10)
    ensures ReadAll(s, Twenties(words)) == ReadAll(s, words)
    decreases |words|
  {
    hide Read;
    if |words| >= 2 {
      if words[0] == 2 && words[1] == 10 {
        var rest, s2 := words[2..], s.(group := s.group + 20);
        TwentyRead(s);
        ReadAllConcat(s, [2, 10], rest);
        ReadAllConcat(s, [20], Twenties(rest));
        assert words == [2, 10] + rest;
        TwentiesRead(s2, rest);
      } else {
        var rest := words[1..];
        ReadOne(s, words[0]);
        ReadAllConcat(s, [words[0]], rest);
        ReadAllConcat(s, [words[0]], Twenties(rest));
        assert words == [words[0]] + rest;
        if words[0] >= 10 {
          RunAfter(s, words[0]);
        }
        TwentiesRead(Read(s, words[0]), rest);
      }
    }
  }

  lemma TwentyRead(s: Sum)
    requires s.run == 0
    ensures ReadAll(s, [2, 10]) == ReadAll(s, [20]) == s.(group := s.group + 20)
  {
    ReadTwo(s, 2, 10);
    ReadOne(s, 20);
  }

  lemma RunAfter(s: Sum, word: nat)
    requires word >= 10
    ensures Read(s, word).run == 0
  {
  }

  // Only two and ten are spelled by the characters that are replaced.
  lemma TwoTenSpelled(word: nat)
    requires Spellable(OldKanji, word)
    ensures WordText(OldKanji, word) == '弐' <==> word == 2
    ensures WordText(OldKanji, word) == '拾' <==> word == 10
  {
  }

  lemma MeansMore(c: char, word: nat, text: string, words: seq<nat>)
    requires WordMeant(c) == Some(word) && Means(text, words)
    ensures Means([c] + text, [word] + words)
  {
    hide WordMeant;
  }

  lemma TwentyStep(words: seq<nat>)
    requires AllSpellable(OldKanji, words) && |words| >= 2
    ensures WithTwenty(Spelled(OldKanji, words)) ==
            if words[0] == 2 && words[1] == 10 then ['廿'] + WithTwenty(Spelled(OldKanji, words[2..]))
            else [WordText(OldKanji, words[0])] + WithTwenty(Spelled(OldKanji, words[1..]))
  {
    hide WordText;
    hide Spellable;
    var text := Spelled(OldKanji, words);
    TwoTenSpelled(words[0]);
    TwoTenSpelled(words[1]);
    assert text[..2] == [text[0], text[1]];
    assert OLD_TWO_TEN == ['弐', '拾'];
    assert text[2..] == Spelled(OldKanji, words[2..]);
    assert text[1..] == Spelled(OldKanji, words[1..]);
  }

  lemma {:induction false} TwentiesMeant(words: seq<nat>)
    requires AllSpellable(OldKanji, words)
    ensures Means(WithTwenty(Spelled(OldKanji, words)), Twenties(words))
    decreases |words|
  {
    hide WordMeant;
    hide WordText;
    hide Spellable;
    hide Means;
    hide Spelled;
    if |words| < 2 {
      SpelledMeans(OldKanji, words);
    } else {
      TwentyStep(words);
      hide WithTwenty;
      if words[0] == 2 && words[1] == 10 {
        TwentiesMeant(words[2..]);
        TwentyMeant();
        MeansMore('廿', 20, WithTwenty(Spelled(OldKanji, words[2..])), Twenties(words[2..]));
      } else {
        TwentiesMeant(words[1..]);
        OneSpelledMeans(OldKanji, words[0]);
        MeansMore(WordText(OldKanji, words[0]), words[0], WithTwenty(Spelled(OldKanji, words[1..])), Twenties(words[1..]));
      }
    }
  }

  lemma TwentyMeant()
    ensures WordMeant('廿') == Some(20)
  {
  }

  // ---- Old-style words are spaced.

  lemma SpacedConcat(a: seq<nat>, b: seq<nat>)
    requires Spaced(a) && Spaced(b) && (a != [] ==> a[|a| - 1] >= 10)
    ensures Spaced(a + b) && (a + b != [] && (b != [] ==> b[|b| - 1] >= 10) ==> (a + b)[|a + b| - 1] >= 10)
  {
  }

  lemma PlaceSpaced(digit: nat, place: nat)
    requires place < 4
    ensures var words := PlaceWords(OldKanji, digit, place);
            Spaced(words) && (place < 3 && words != [] ==> words[|words| - 1] >= 10)
  {
  }

  lemma GroupSpaced(g: seq<nat>)
    requires |g| == 4
    ensures Spaced(GroupWords(OldKanji, g))
  {
    hide PlaceWords;
    hide Spaced;
    FourPlaces(OldKanji, g);
    PlaceSpaced(g[0], 0);
    PlaceSpaced(g[1], 1);
    PlaceSpaced(g[2], 2);
    PlaceSpaced(g[3], 3);
    var w0, w1, w2 := PlaceWords(OldKanji, g[0], 0), PlaceWords(OldKanji, g[1], 1), PlaceWords(OldKanji, g[2], 2);
    SpacedConcat(w0, w1);
    SpacedConcat(w0 + w1, w2);
    SpacedConcat(w0 + w1 + w2, PlaceWords(OldKanji, g[3], 3));
  }

  lemma ScaledSpaced(words: seq<nat>, scale: nat)
    requires Spaced(words) && scale >= 10
    ensures Spaced(words + [scale])
  {
  }

  lemma {:induction false} WordsSpaced(groups: seq<seq<nat>>, n: nat)
    requires Groups(groups) && n <= |groups|
    ensures Spaced(Words(OldKanji, groups, n))
  {
    hide GroupWords;
    hide Spaced;
    assert Spaced([]) by {
      NoWordsSpaced();
    }
    if n > 0 {
      var words := GroupWords(OldKanji, groups[n - 1]);
      GroupSpaced(groups[n - 1]);
      WordsSpaced(groups, n - 1);
      if n == 1 {
        LowestWords(OldKanji, groups);
      } else if words != [] {
        ScaledSpaced(words, Scale(n - 1));
        SpacedConcat(words + [Scale(n - 1)], Words(OldKanji, groups, n - 1));
      } else {
        assert Words(OldKanji, groups, n) == Words(OldKanji, groups, n - 1);
      }
    }
  }

  lemma NoWordsSpaced()
    ensures Spaced([])
  {
  }

  // ---- Every candidate.

  ghost predicate MeansNumber(text: string, v: nat) {
    exists words :: Means(text, words) && NumeralValue(words) == v
  }

  lemma SpellingMeans(style: Style, s: string)
    requires IsDecimal(s) && |s| <= 4 * MAX_RANKS
    ensures MeansNumber(TextOf(style, GroupsOf(Filled(s))), ValueOf(s))
    ensures style.OldKanji? ==> MeansNumber(WithTwenty(TextOf(style, GroupsOf(Filled(s)))), ValueOf(s))
  {
    hide Words;
    hide GroupsOf;
    hide Filled;
    hide ValueOf;
    hide Means;
    hide ReadAll;
    var groups := GroupsOf(Filled(s));
    var words := Words(style, groups, |groups|);
    GroupsValueOf(s);
    WordsSpellable(style, groups, |groups|);
    WordsReading(style, 0, groups, |groups|);
    NumberText.NoLeadingZero(style, groups, |groups|);
    SpelledMeans(style, words);
    if style.OldKanji? {
      WordsSpaced(groups, |groups|);
      TwentiesMeant(words);
      TwentiesRead(NOTHING, words);
    }
  }

  lemma TenAndThousand(s: string)
    requires IsDecimal(s)
    ensures Filled(s) == "0010" ==> ValueOf(s) == 10 && MeansNumber("拾", 10)
    ensures Filled(s) == "1000" ==> ValueOf(s) == 1000 && MeansNumber("阡", 1000)
  {
    FilledValue(s);
    if Filled(s) == "0010" || Filled(s) == "1000" {
      FourDigits(Digits(Filled(s)));
    }
    OneWordMeans('拾', 10);
    OneWordMeans('阡', 1000);
  }

  lemma OneWordMeans(c: char, word: nat)
    requires WordMeant(c) == Some(word) && 10 <= word < 10000
    ensures MeansNumber([c], word)
  {
    assert Means([c], [word]);
    ReadOne(NOTHING, word);
  }

  // Whatever spelling is offered for a number means that number.
  lemma CandidatesMean(s: string, c: NumberString)
    requires c in Converted(s) && !AllZeros(s)
    ensures IsDecimal(s) && MeansNumber(c.value, ValueOf(s))
  {
    hide TextOf;
    hide WithTwenty;
    hide MeansNumber;
    var f := Filled(s);
    var i := NumberText.CandidateStyle(f, 4, c);
    SpellingMeans(STYLES[i], s);
    TenAndThousand(s);
  }
}
