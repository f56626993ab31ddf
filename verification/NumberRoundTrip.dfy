// Spelling a number and reading it back.
module NumberRoundTrip {
  import opened NumberParser
  import opened NumberReading
  import opened NumberPrinter

  function RankedValue(group: seq<nat>, rank: nat): nat {
    Base10(group) * Scale(rank)
  }

  // The value of the lowest n groups.
  function GroupsValue(groups: seq<seq<nat>>, n: nat): nat
    requires n <= |groups|
  {
    if n == 0 then 0 else RankedValue(groups[n - 1], n - 1) + GroupsValue(groups, n - 1)
  }

  lemma FourDigits(g: seq<nat>)
    requires |g| == 4
    ensures Base10(g) == 1000 * g[0] + 100 * g[1] + 10 * g[2] + g[3]
  {
    assert g[..3][..2] == g[..2] && g[..2][..1] == g[..1] && g[..1][..0] == [];
    assert Base10(g[..1]) == g[0];
    assert Base10(g[..2]) == 10 * g[0] + g[1];
    assert Base10(g[..3]) == 100 * g[0] + 10 * g[1] + g[2];
  }

  lemma {:induction false} Base10Zeros(d: seq<nat>)
    ensures Base10(AfterZeros(d)) == Base10(d)
  {
    var n := ZeroCount(d);
    Base10Concat(d[..n], d[n..]);
    assert d == d[..n] + d[n..];
    NoValueInZeros(d[..n]);
  }

  lemma {:induction false} NoValueInZeros(d: seq<nat>)
    requires forall k :: 0 <= k < |d| ==> d[k] == 0
    ensures Base10(d) == 0
  {
    if d != [] {
      NoValueInZeros(d[..|d| - 1]);
    }
  }

  function TenTo(n: nat): (p: nat)
    ensures p >= 1
  {
    if n == 0 then 1 else 10 * TenTo(n - 1)
  }

  lemma {:induction false} Base10Concat(a: seq<nat>, b: seq<nat>)
    ensures Base10(a + b) == Base10(a) * TenTo(|b|) + Base10(b)
  {
    if b == [] {
      assert a + b == a;
    } else {
      var front := b[..|b| - 1];
      Base10Concat(a, front);
      assert (a + b)[..|a + b| - 1] == a + front && (a + b)[|a + b| - 1] == b[|b| - 1];
      TimesTen(Base10(a), TenTo(|front|), Base10(front));
    }
  }

  lemma TimesTen(a: nat, p: nat, f: nat)
    ensures (a * p + f) * 10 == a * (10 * p) + f * 10
  {
  }

  // ---- What the spelled words read as, in every style.

  lemma PlaceReading(style: Style, s: Sum, digit: nat, place: nat)
    requires s.run == 0 && digit < 10 && place < 4
    ensures ReadAll(s, PlaceWords(style, digit, place)) ==
            if place == 3 then s.(run := digit) else s.(group := s.group + digit * Unit(place))
  {
    if digit != 0 {
      var unit := Unit(place);
      ReadOne(s, unit);
      ReadOne(s, digit);
      ReadTwo(s, digit, unit);
    }
  }

  lemma PlacesReading(style: Style, total: nat, g: seq<nat>) returns (after: Sum)
    requires |g| == 4 && AllDigits(g)
    ensures ReadAll(Sum(total, 0, 0), PlacesWords(style, g, 4)) == after
    ensures after.total == total && after.group + after.run == Base10(g)
  {
    hide PlaceWords;
    hide Read;
    var s := Sum(total, 0, 0);
    FourDigits(g);
    after := s;
    PlaceReading(style, s, g[0], 0);
    var s1 := s.(group := 1000 * g[0]);
    assert PlacesWords(style, g, 1) == PlaceWords(style, g[0], 0);
    ReadAllConcat(s, PlacesWords(style, g, 1), PlaceWords(style, g[1], 1));
    PlaceReading(style, s1, g[1], 1);
    var s2 := s.(group := 1000 * g[0] + 100 * g[1]);
    ReadAllConcat(s, PlacesWords(style, g, 2), PlaceWords(style, g[2], 2));
    PlaceReading(style, s2, g[2], 2);
    var s3 := s.(group := 1000 * g[0] + 100 * g[1] + 10 * g[2]);
    ReadAllConcat(s, PlacesWords(style, g, 3), PlaceWords(style, g[3], 3));
    PlaceReading(style, s3, g[3], 3);
    after := s3.(run := g[3]);
  }

  lemma GroupReading(style: Style, total: nat, g: seq<nat>) returns (after: Sum)
    requires |g| == 4 && AllDigits(g)
    ensures ReadAll(Sum(total, 0, 0), GroupWords(style, g)) == after
    ensures after.total == total && after.group + after.run == Base10(g)
    ensures GroupWords(style, g) == [] <==> Base10(g) == 0
  {
    if UsesDigits(style) {
      ReadDigits(Sum(total, 0, 0), AfterZeros(g));
      Base10Zeros(g);
      after := Sum(total, 0, Base10(g));
      FourDigits(g);
    } else {
      after := PlacesReading(style, total, g);
      FourDigits(g);
      EmptyPlaces(style, g);
    }
  }

  lemma EmptyPlaces(style: Style, g: seq<nat>)
    requires |g| == 4 && AllDigits(g)
    ensures PlacesWords(style, g, 4) == [] <==> g[0] == 0 && g[1] == 0 && g[2] == 0 && g[3] == 0
  {
    FourPlaces(style, g);
  }

  lemma FourPlaces(style: Style, g: seq<nat>)
    requires |g| == 4
    ensures PlacesWords(style, g, 4) ==
            PlaceWords(style, g[0], 0) + PlaceWords(style, g[1], 1) + PlaceWords(style, g[2], 2) + PlaceWords(style, g[3], 3)
  {
    hide PlaceWords;
    assert PlacesWords(style, g, 1) == PlaceWords(style, g[0], 0);
    assert PlacesWords(style, g, 2) == PlacesWords(style, g, 1) + PlaceWords(style, g[1], 1);
    assert PlacesWords(style, g, 3) == PlacesWords(style, g, 2) + PlaceWords(style, g[2], 2);
  }

  lemma RankedReading(style: Style, total: nat, g: seq<nat>, rank: nat)
    requires |g| == 4 && AllDigits(g) && rank >= 1
    ensures ReadAll(Sum(total, 0, 0), RankedWords(style, g, rank)) == Sum(total + RankedValue(g, rank), 0, 0)
  {
    hide GroupWords;
    hide Base10;
    var words := GroupWords(style, g);
    var after := GroupReading(style, total, g);
    ReadOne(after, Scale(rank));
    ReadAllConcat(Sum(total, 0, 0), words, [Scale(rank)]);
  }

  lemma LowestWords(style: Style, groups: seq<seq<nat>>)
    requires Groups(groups) && 1 <= |groups|
    ensures Words(style, groups, 1) == GroupWords(style, groups[0])
  {
    hide GroupWords;
    assert Words(style, groups, 0) == [];
  }

  lemma LowestScale()
    ensures Scale(0) == 1
  {
  }

  // In each of the four styles the words read as the number, whatever its size.
  lemma {:induction false} WordsReading(style: Style, total: nat, groups: seq<seq<nat>>, n: nat)
    requires Groups(groups) && n <= |groups|
    ensures SumValue(ReadAll(Sum(total, 0, 0), Words(style, groups, n))) == total + GroupsValue(groups, n)
    decreases n
  {
    hide Base10;
    hide Read;
    hide RankedWords;
    hide Scale;
    if n == 1 {
      LowestWords(style, groups);
      var after := GroupReading(style, total, groups[0]);
      assert Scale(0) == 1 by {
        LowestScale();
      }
    } else if n > 1 {
      RankedReading(style, total, groups[n - 1], n - 1);
      WordsReading(style, total + RankedValue(groups[n - 1], n - 1), groups, n - 1);
      ReadAllConcat(Sum(total, 0, 0), RankedWords(style, groups[n - 1], n - 1), Words(style, groups, n - 1));
    }
  }

  // ---- What the parser makes of them.

  // Words that a place of this base leaves alone.
  predicate Under(r: seq<nat>, base: nat) {
    || Done(r)
    || (10 <= r[0] < base && r[0] != 20)
    || (1 <= r[0] < 10 && (|r| == 1 || (10 <= r[1] < base) || r[1] >= 10000))
  }

  lemma UnderStays(r: seq<nat>, base: nat)
    requires Under(r, base) && base in {10, 100, 1000}
    ensures ReduceDigits(r, base) == Reduced(false, r, 0, [])
  {
    assert r[0..] == r;
  }

  lemma UnderPlace(digit: nat, place: nat, r: seq<nat>)
    requires digit < 10 && place < 3 && Under(r, Unit(place))
    ensures Under(PlaceWords(Kanji, digit, place) + r, Unit(place) * 10)
  {
  }

  lemma UnderOnes(digit: nat, r: seq<nat>)
    requires digit < 10 && Done(r)
    ensures Under(PlaceWords(Kanji, digit, 3) + r, 10)
  {
  }

  lemma PlaceReduced(digit: nat, place: nat, r: seq<nat>)
    requires digit < 10 && place < 3 && Under(r, Unit(place))
    ensures ReduceDigits(PlaceWords(Kanji, digit, place) + r, Unit(place)) == Reduced(digit != 0, r, digit * Unit(place), [])
  {
    var t := PlaceWords(Kanji, digit, place) + r;
    if digit == 0 {
      assert t == r;
      UnderStays(r, Unit(place));
    } else {
      assert ZeroCount(t) == 0 && t[0..] == t;
      assert t[if digit == 1 then 1 else 2..] == r;
    }
  }

  lemma OnesReduced(digit: nat, r: seq<nat>)
    requires digit < 10 && Done(r)
    ensures ReduceOnes(PlaceWords(Kanji, digit, 3) + r) == Reduced(digit != 0, r, digit, [])
  {
    var t := PlaceWords(Kanji, digit, 3) + r;
    if digit == 0 {
      assert t == r;
    } else {
      assert t[1..] == r;
    }
  }

  lemma PlacesReduced(g: seq<nat>, rest: seq<nat>)
    requires |g| == 4 && AllDigits(g) && Base10(g) > 0 && Done(rest)
    ensures ReduceUnder10000(PlacesWords(Kanji, g, 4) + rest) == Reduced(true, rest, Base10(g), [])
  {
    hide ReduceDigits;
    hide ReduceOnes;
    hide PlaceWords;
    hide PlacesWords;
    hide Base10;
    hide Under;
    var r3 := PlaceWords(Kanji, g[3], 3) + rest;
    var r2 := PlaceWords(Kanji, g[2], 2) + r3;
    var r1 := PlaceWords(Kanji, g[1], 1) + r2;
    UnderOnes(g[3], rest);
    UnderPlace(g[2], 2, r3);
    UnderPlace(g[1], 1, r2);
    PlaceReduced(g[0], 0, r1);
    PlaceReduced(g[1], 1, r2);
    PlaceReduced(g[2], 2, r3);
    OnesReduced(g[3], rest);
    FourDigits(g);
    FourPlaces(Kanji, g);
    assert PlacesWords(Kanji, g, 4) + rest == PlaceWords(Kanji, g[0], 0) + r1;
  }

  lemma RunBefore(z: seq<nat>, rest: seq<nat>)
    requires AllDigits(z) && Done(rest)
    ensures RunLength(z + rest) == |z|
  {
    hide RunLength;
    var t := z + rest;
    assert forall k :: 0 <= k < |z| ==> t[k] == z[k];
    assert rest != [] ==> t[|z|] == rest[0];
  }

  lemma OneDigitReduced(d: nat, rest: seq<nat>)
    requires 1 <= d < 10 && Done(rest)
    ensures ReduceUnder10000([d] + rest) == Reduced(true, rest, d, [])
  {
    var t := [d] + rest;
    UnderStays(t, 1000);
    UnderStays(t, 100);
    UnderStays(t, 10);
    hide ReduceDigits;
    assert t[1..] == rest;
  }

  lemma RunReduced(z: seq<nat>, rest: seq<nat>)
    requires AllDigits(z) && |z| >= 2 && z[0] != 0 && Base10(z) < 10000 && Done(rest)
    ensures ReduceDigits(z + rest, 1000) == Reduced(true, rest, Base10(z), [])
  {
    var t := z + rest;
    RunBefore(z, rest);
    hide RunLength;
    hide Base10;
    assert ZeroCount(t) == 0 && t[0..] == t && t[..|z|] == z && t[|z|..] == rest;
  }

  lemma DigitsReduced(z: seq<nat>, rest: seq<nat>)
    requires AllDigits(z) && z != [] && z[0] != 0 && Base10(z) < 10000 && Done(rest)
    ensures ReduceUnder10000(z + rest) == Reduced(true, rest, Base10(z), [])
  {
    hide ReduceDigits;
    hide Base10;
    if |z| == 1 {
      assert z == [z[0]];
      Base10Digit(z[0]);
      OneDigitReduced(z[0], rest);
    } else {
      RunReduced(z, rest);
      UnderStays(rest, 100);
      UnderStays(rest, 10);
    }
  }

  lemma Base10Digit(d: nat)
    ensures Base10([d]) == d
  {
    assert [d][..0] == [];
  }

  lemma GroupReduced(style: Style, g: seq<nat>, rest: seq<nat>)
    requires |g| == 4 && AllDigits(g) && Base10(g) > 0 && Done(rest) && !style.OldKanji?
    ensures ReduceUnder10000(GroupWords(style, g) + rest) == Reduced(true, rest, Base10(g), [])
  {
    hide ReduceUnder10000;
    if UsesDigits(style) {
      Base10Zeros(g);
      FourDigits(g);
      DigitsReduced(AfterZeros(g), rest);
    } else {
      PlacesReduced(g, rest);
    }
  }

  lemma PositiveProduct(a: nat, b: nat)
    requires b >= 1
    ensures a * b >= 0 && (a * b == 0 <==> a == 0)
  {
    if a > 0 {
      assert a * b >= b;
    }
  }

  lemma ValueOfZeros(g: seq<nat>, rank: nat)
    ensures RankedValue(g, rank) == 0 <==> Base10(g) == 0
  {
    PositiveProduct(Base10(g), Scale(rank));
  }

  lemma EmptyGroup(style: Style, g: seq<nat>, rank: nat)
    requires |g| == 4 && AllDigits(g)
    ensures RankedWords(style, g, rank) == [] <==> Base10(g) == 0
  {
    hide GroupWords;
    hide Base10;
    var _ := GroupReading(style, 0, g);
  }

  lemma {:induction false} NoWordsForZero(style: Style, groups: seq<seq<nat>>, n: nat)
    requires Groups(groups) && n <= |groups|
    ensures Words(style, groups, n) == [] <==> GroupsValue(groups, n) == 0
  {
    hide RankedWords;
    hide RankedValue;
    hide Base10;
    if n > 0 {
      ValueOfZeros(groups[n - 1], n - 1);
      EmptyGroup(style, groups[n - 1], n - 1);
      NoWordsForZero(style, groups, n - 1);
    }
  }

  lemma OneTermInterpreted(t: seq<nat>, coef: nat, base: nat, low: seq<nat>, output: nat, lastBase: nat, sum: nat)
    requires sum == output + coef * base && base < lastBase
    requires ReduceUnder10000(t) == Reduced(true, [base] + low, coef, [])
    ensures InterpretFrom(t, output, lastBase) ==
            if sum >= WORD_LIMIT then Failed else if low == [] then Value(sum, []) else InterpretFrom(low, sum, base)
  {
    hide ReduceUnder10000;
    assert ([base] + low)[1..] == low;
  }

  // The words of a number whose highest group, of rank at least one, is not zero.
  lemma HighGroupInterpreted(style: Style, g: seq<nat>, rank: nat, low: seq<nat>, output: nat, lastBase: nat)
    requires |g| == 4 && AllDigits(g) && Base10(g) > 0 && !style.OldKanji? && 1 <= rank && Scale(rank) < lastBase
    ensures var sum := output + RankedValue(g, rank);
            InterpretFrom(RankedWords(style, g, rank) + low, output, lastBase) ==
            if sum >= WORD_LIMIT then Failed
            else if low == [] then Value(sum, [])
            else InterpretFrom(low, sum, Scale(rank))
  {
    hide ReduceUnder10000;
    hide GroupWords;
    hide Base10;
    hide Scale;
    hide InterpretFrom;
    var words, rest := GroupWords(style, g), [Scale(rank)] + low;
    var _ := GroupReading(style, 0, g);
    GroupReduced(style, g, rest);
    assert RankedWords(style, g, rank) + low == words + rest;
    OneTermInterpreted(words + rest, Base10(g), Scale(rank), low, output, lastBase, output + RankedValue(g, rank));
  }

  lemma LowGroupInterpreted(style: Style, groups: seq<seq<nat>>, output: nat, lastBase: nat)
    requires Groups(groups) && 1 <= |groups| && Base10(groups[0]) > 0 && !style.OldKanji?
    ensures InterpretFrom(Words(style, groups, 1), output, lastBase) ==
            if output + GroupsValue(groups, 1) < WORD_LIMIT then Value(output + GroupsValue(groups, 1), []) else Failed
  {
    hide ReduceUnder10000;
    hide GroupWords;
    hide Base10;
    LowestWords(style, groups);
    var g := groups[0];
    GroupReduced(style, g, []);
    assert GroupWords(style, g) + [] == GroupWords(style, g);
    assert GroupsValue(groups, 0) == 0;
  }

  lemma ScaleStep(rank: nat)
    ensures rank > 0 ==> Scale(rank - 1) < Scale(rank)
  {
  }

  // A number in groups is what its words are interpreted as, unless it is too
  // large for the source's words.
  lemma {:induction false} WordsInterpreted(style: Style, groups: seq<seq<nat>>, n: nat, output: nat, lastBase: nat)
    requires Groups(groups) && n <= |groups| && !style.OldKanji?
    requires GroupsValue(groups, n) > 0 && (n > 1 ==> Scale(n - 1) < lastBase)
    ensures InterpretFrom(Words(style, groups, n), output, lastBase) ==
            if output + GroupsValue(groups, n) < WORD_LIMIT then Value(output + GroupsValue(groups, n), []) else Failed
    decreases n
  {
    hide InterpretFrom;
    hide RankedWords;
    hide RankedValue;
    hide Base10;
    hide Scale;
    var g, low := groups[n - 1], Words(style, groups, n - 1);
    ValueOfZeros(g, n - 1);
    EmptyGroup(style, g, n - 1);
    NoWordsForZero(style, groups, n - 1);
    ScaleStep(n - 1);
    if n > 1 {
      ScaleStep(n - 2);
    }
    if Base10(g) == 0 {
      assert Words(style, groups, n) == low;
      WordsInterpreted(style, groups, n - 1, output, lastBase);
    } else if n == 1 {
      LowGroupInterpreted(style, groups, output, lastBase);
    } else {
      var sum := output + RankedValue(g, n - 1);
      HighGroupInterpreted(style, g, n - 1, low, output, lastBase);
      if sum < WORD_LIMIT && low != [] {
        WordsInterpreted(style, groups, n - 1, sum, Scale(n - 1));
      }
    }
  }

  // ---- The number that a decimal string is cut into groups of.

  lemma FourMoreDigits(n: nat)
    ensures TenTo(4 * n + 4) == 10000 * TenTo(4 * n)
  {
    assert TenTo(4 * n + 4) == 10 * TenTo(4 * n + 3);
    assert TenTo(4 * n + 3) == 10 * TenTo(4 * n + 2);
    assert TenTo(4 * n + 2) == 10 * TenTo(4 * n + 1);
  }

  lemma {:induction false} ScaleIsTenTo(n: nat)
    ensures Scale(n) == TenTo(4 * n)
  {
    if n > 0 {
      ScaleIsTenTo(n - 1);
      FourMoreDigits(n - 1);
    }
  }

  lemma {:induction false} LowGroupsValue(s: string, n: nat)
    requires IsDecimal(s) && |s| % 4 == 0 && n <= |s| / 4
    ensures GroupsValue(GroupsOf(s), n) == Base10(Digits(s)[|s| - 4 * n..])
  {
    hide Base10;
    hide Scale;
    hide TenTo;
    var d, groups := Digits(s), GroupsOf(s);
    if n == 0 {
      assert d[|s|..] == [];
      assert Base10([]) == 0 by {
        NoValueInZeros([]);
      }
    } else {
      LowGroupsValue(s, n - 1);
      var high, low := groups[n - 1], d[|s| - 4 * (n - 1)..];
      assert d[|s| - 4 * n..] == high + low;
      Base10Concat(high, low);
      ScaleIsTenTo(n - 1);
    }
  }

  lemma FilledValue(s: string)
    requires IsDecimal(s)
    ensures Base10(Digits(Filled(s))) == Base10(Digits(s))
  {
    hide Base10;
    hide TenTo;
    var n := |Filled(s)| - |s|;
    var zeros := Digits(Filled(s))[..n];
    assert Digits(Filled(s)) == zeros + Digits(s);
    Base10Concat(zeros, Digits(s));
    NoValueInZeros(zeros);
  }

  // The number a decimal string stands for.
  function ValueOf(s: string): nat
    requires IsDecimal(s)
  {
    Base10(Digits(s))
  }

  lemma GroupsValueOf(s: string)
    requires IsDecimal(s)
    ensures var groups := GroupsOf(Filled(s)); GroupsValue(groups, |groups|) == ValueOf(s)
  {
    hide Base10;
    var f := Filled(s);
    FilledValue(s);
    LowGroupsValue(f, |f| / 4);
    assert Digits(f)[|f| - 4 * (|f| / 4)..] == Digits(f);
  }
}
