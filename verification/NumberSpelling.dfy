// How a number is spelled, said without the printer: the words that are well spelled
// in a style. Of the words that mean a number exactly one sequence is, and it is the
// one that is offered.
module NumberSpelling {
  import opened NumberParser
  import opened NumberReading
  import opened NumberPrinter
  import opened NumberRoundTrip
  import NumberText

  // ---- Well spelled words.

  predicate IsUnit(word: nat) {
    word == 10 || word == 100 || word == 1000
  }

  // The rank of a larger word, which is a power of ten thousand.
  function RankOf(word: nat): nat {
    if word == 10000 then 1
    else if word == 1_0000_0000 then 2
    else if word == 1_0000_0000_0000 then 3
    else if word == 1_0000_0000_0000_0000 then 4
    else 0
  }

  // Units in descending order, each below the bound and with a digit before it, and
  // at the end perhaps a digit alone. Kanji have no one before a unit, and instead of
  // it no digit; the old style has a digit before every unit.
  predicate Terms(style: Style, g: seq<nat>, bound: nat)
    decreases |g|
  {
    || g == []
    || if g[0] < 10 then
         && 1 <= g[0]
         && (|g| == 1 || (IsUnit(g[1]) && g[1] < bound && (style.OldKanji? || g[0] >= 2) && Terms(style, g[2..], g[1])))
       else IsUnit(g[0]) && g[0] < bound && !style.OldKanji? && Terms(style, g[1..], g[0])
  }

  // What stands before a larger word or at the end: up to four digits without zeros in
  // front, or terms.
  predicate Coefficient(style: Style, g: seq<nat>) {
    g != [] && if UsesDigits(style) then |g| <= 4 && AllDigits(g) && g[0] != 0 else Terms(style, g, 10000)
  }

  predicate Small(t: seq<nat>) {
    forall k :: 0 <= k < |t| ==> t[k] < 10000
  }

  // The first of the larger words.
  function LargeAt(t: seq<nat>): (n: nat)
    ensures n <= |t| && Small(t[..n]) && (n < |t| ==> t[n] >= 10000)
  {
    if t == [] || t[0] >= 10000 then 0
    else
      assert t == [t[0]] + t[1..];
      1 + LargeAt(t[1..])
  }

  // Coefficients with larger words after them, in descending order of rank, and
  // perhaps a coefficient alone at the end.
  predicate WellSpelled(style: Style, t: seq<nat>, rank: nat)
    decreases |t|
  {
    var n := LargeAt(t);
    if n == |t| then t == [] || Coefficient(style, t)
    else Coefficient(style, t[..n]) && 1 <= RankOf(t[n]) < rank && WellSpelled(style, t[n + 1..], RankOf(t[n]))
  }

  // ---- What they mean.

  lemma {:induction false} SmallRead(total: nat, group: nat, t: seq<nat>)
    requires Small(t)
    ensures var r := ReadAll(NOTHING, t);
            r.total == 0 && ReadAll(Sum(total, group, 0), t) == Sum(total, group + r.group, r.run)
  {
    if t != [] {
      SmallRead(total, group, t[..|t| - 1]);
    }
  }

  lemma {:induction false} TotalRead(total: nat, t: seq<nat>)
    ensures var r := ReadAll(NOTHING, t); ReadAll(Sum(total, 0, 0), t) == Sum(total + r.total, r.group, r.run)
  {
    if t != [] {
      TotalRead(total, t[..|t| - 1]);
    }
  }

  lemma NothingMeant()
    ensures NumeralValue([]) == 0
  {
  }

  lemma DigitMeant(d: nat)
    requires d < 10
    ensures NumeralValue([d]) == d
  {
    ReadOne(NOTHING, d);
  }

  lemma UnitMeant(u: nat, rest: seq<nat>)
    requires IsUnit(u) && Small(rest)
    ensures NumeralValue([u] + rest) == u + NumeralValue(rest)
  {
    assert Read(NOTHING, u) == Sum(0, u, 0);
    hide Read;
    hide ReadAll;
    ReadOne(NOTHING, u);
    ReadAllConcat(NOTHING, [u], rest);
    SmallRead(0, u, rest);
  }

  lemma TermMeant(d: nat, u: nat, rest: seq<nat>)
    requires 1 <= d < 10 && IsUnit(u) && Small(rest)
    ensures NumeralValue([d, u] + rest) == d * u + NumeralValue(rest)
  {
    assert Read(Read(NOTHING, d), u) == Sum(0, d * u, 0);
    hide Read;
    hide ReadAll;
    ReadTwo(NOTHING, d, u);
    ReadAllConcat(NOTHING, [d, u], rest);
    SmallRead(0, d * u, rest);
  }

  lemma ScaledMeant(g: seq<nat>, large: nat, rest: seq<nat>)
    requires Small(g) && large >= 10000
    ensures NumeralValue(g + [large] + rest) == NumeralValue(g) * large + NumeralValue(rest)
  {
    var r := ReadAll(NOTHING, g);
    SmallRead(0, 0, g);
    var product := (r.group + r.run) * large;
    assert Read(r, large) == Sum(product, 0, 0);
    hide Read;
    hide ReadAll;
    ReadOne(r, large);
    ReadAllConcat(NOTHING, g, [large]);
    ReadAllConcat(NOTHING, g + [large], rest);
    TotalRead(product, rest);
  }

  // ---- How large that is.

  predicate Bound(bound: nat) {
    IsUnit(bound) || bound == 10000
  }

  lemma SmallSplit(g: seq<nat>, n: nat)
    requires n <= |g| && Small(g[n..]) && forall k :: 0 <= k < n ==> g[k] < 10000
    ensures Small(g) && g == g[..n] + g[n..]
  {
    forall k | n <= k < |g| ensures g[k] < 10000 {
      assert g[k] == g[n..][k - n];
    }
  }

  lemma TermFits(d: nat, u: nat, rest: nat, bound: nat)
    requires 1 <= d < 10 && IsUnit(u) && u < bound && Bound(bound) && rest < u
    ensures d * u + rest < bound
  {
  }

  lemma {:induction false} TermsBound(style: Style, g: seq<nat>, bound: nat)
    requires Terms(style, g, bound) && Bound(bound)
    ensures Small(g) && NumeralValue(g) < bound && (g != [] ==> NumeralValue(g) >= 1)
    decreases |g|
  {
    hide NumeralValue;
    if g == [] {
      NothingMeant();
    } else if |g| == 1 && g[0] < 10 {
      DigitMeant(g[0]);
      assert g == [g[0]];
    } else if g[0] < 10 {
      TermsBound(style, g[2..], g[1]);
      SmallSplit(g, 2);
      assert g == [g[0], g[1]] + g[2..];
      TermMeant(g[0], g[1], g[2..]);
      TermFits(g[0], g[1], NumeralValue(g[2..]), bound);
    } else {
      TermsBound(style, g[1..], g[0]);
      SmallSplit(g, 1);
      assert g == [g[0]] + g[1..];
      UnitMeant(g[0], g[1..]);
      TermFits(1, g[0], NumeralValue(g[1..]), bound);
    }
  }

  lemma DigitsMeant(g: seq<nat>)
    requires AllDigits(g)
    ensures NumeralValue(g) == Base10(g)
  {
    ReadDigits(NOTHING, g);
  }

  lemma CoefficientBound(style: Style, g: seq<nat>)
    requires Coefficient(style, g)
    ensures Small(g) && 1 <= NumeralValue(g) < 10000
  {
    if UsesDigits(style) {
      hide Base10;
      DigitsMeant(g);
      NumberText.LeadingDigitCounts(g);
      ShortDigits(g);
    } else {
      TermsBound(style, g, 10000);
      hide NumeralValue;
      hide Terms;
    }
  }

  lemma {:induction false} ShortDigits(g: seq<nat>)
    requires AllDigits(g)
    ensures Base10(g) < TenTo(|g|)
    ensures |g| <= 4 ==> Base10(g) < 10000
  {
    if g != [] {
      ShortDigits(g[..|g| - 1]);
    }
    SmallPowers();
    if |g| < 4 {
      assert TenTo(|g|) <= 1000;
    }
  }

  lemma SmallPowers()
    ensures TenTo(0) == 1 && TenTo(1) == 10 && TenTo(2) == 100 && TenTo(3) == 1000 && TenTo(4) == 10000
  {
    assert TenTo(1) == 10 * TenTo(0);
    assert TenTo(2) == 10 * TenTo(1);
    assert TenTo(3) == 10 * TenTo(2);
    assert TenTo(4) == 10 * TenTo(3);
  }

  lemma RankScale(word: nat)
    requires RankOf(word) >= 1
    ensures word == Scale(RankOf(word)) && word >= 10000
  {
    assert Scale(1) == 10000 * Scale(0);
    assert Scale(2) == 10000 * Scale(1);
    assert Scale(3) == 10000 * Scale(2);
    assert Scale(4) == 10000 * Scale(3);
  }

  lemma {:induction false} ScaleRises(r: nat, rank: nat)
    requires r < rank
    ensures 10000 * Scale(r) <= Scale(rank)
    decreases rank
  {
    if r + 1 < rank {
      ScaleRises(r, rank - 1);
    }
  }

  lemma ScaledBound(c: nat, scale: nat, rest: nat)
    requires 1 <= c < 10000 && rest < scale
    ensures scale <= c * scale + rest < 10000 * scale
  {
    assert c * scale <= 9999 * scale;
    assert c * scale >= scale;
  }

  lemma Cut(t: seq<nat>, n: nat)
    requires n < |t|
    ensures t == t[..n] + [t[n]] + t[n + 1..]
  {
  }

  lemma PartsSpelled(style: Style, t: seq<nat>, rank: nat)
    requires WellSpelled(style, t, rank) && LargeAt(t) < |t|
    ensures var n := LargeAt(t); Coefficient(style, t[..n]) && RankOf(t[n]) >= 1 && WellSpelled(style, t[n + 1..], RankOf(t[n]))
  {
    hide Coefficient;
    hide LargeAt;
    hide RankOf;
  }

  lemma LargeMeant(t: seq<nat>, n: nat, rank: nat)
    requires n < |t| && Small(t[..n]) && t[n] == Scale(rank) && t[n] >= 10000
    requires 1 <= NumeralValue(t[..n]) < 10000 && NumeralValue(t[n + 1..]) < t[n]
    ensures NumeralValue(t) == NumeralValue(t[..n]) * t[n] + NumeralValue(t[n + 1..])
    ensures t[n] <= NumeralValue(t) < 10000 * t[n]
  {
    hide *;
    Cut(t, n);
    ScaledMeant(t[..n], t[n], t[n + 1..]);
    ScaledBound(NumeralValue(t[..n]), t[n], NumeralValue(t[n + 1..]));
  }

  lemma {:induction false} SpelledBound(style: Style, t: seq<nat>, rank: nat)
    requires WellSpelled(style, t, rank) && rank >= 1
    ensures NumeralValue(t) < Scale(rank) && (t != [] ==> NumeralValue(t) >= 1)
    decreases |t|
  {
    hide NumeralValue;
    hide Coefficient;
    hide Scale;
    var n := LargeAt(t);
    ScaleRises(0, rank);
    LowestScale();
    if t == [] {
      NothingMeant();
    } else if n == |t| {
      CoefficientBound(style, t);
    } else {
      var r := RankOf(t[n]);
      CoefficientBound(style, t[..n]);
      SpelledBound(style, t[n + 1..], r);
      RankScale(t[n]);
      ScaleRises(r, rank);
      LargeMeant(t, n, r);
    }
  }

  // ---- One spelling.

  lemma LessProduct(c: nat, c': nat, u: nat)
    ensures c < c' ==> c * u + u <= c' * u
  {
    if c < c' {
      var k: nat := c' - c - 1;
      assert c' == c + 1 + k;
      assert c' * u == c * u + u + k * u;
    }
  }

  lemma Divided(c: nat, r: nat, c': nat, r': nat, u: nat)
    requires r < u && r' < u && c * u + r == c' * u + r'
    ensures c == c' && r == r'
  {
    LessProduct(c, c', u);
    LessProduct(c', c, u);
  }

  // The first unit of terms, the digit it counts for and what follows.
  function FirstUnit(g: seq<nat>): nat
    requires g != [] && (g[0] < 10 ==> |g| > 1)
  {
    if g[0] < 10 then g[1] else g[0]
  }

  function FirstDigit(g: seq<nat>): nat
    requires g != []
  {
    if g[0] < 10 then g[0] else 1
  }

  function AfterUnit(g: seq<nat>): seq<nat>
    requires g != [] && (g[0] < 10 ==> |g| > 1)
  {
    if g[0] < 10 then g[2..] else g[1..]
  }

  predicate HasUnit(g: seq<nat>) {
    g != [] && (g[0] < 10 ==> |g| > 1)
  }

  lemma UnitFirst(style: Style, g: seq<nat>, bound: nat)
    requires Terms(style, g, bound) && Bound(bound) && HasUnit(g)
    ensures IsUnit(FirstUnit(g)) && 1 <= FirstDigit(g) < 10 && Terms(style, AfterUnit(g), FirstUnit(g))
    ensures NumeralValue(AfterUnit(g)) < FirstUnit(g)
    ensures NumeralValue(g) == FirstDigit(g) * FirstUnit(g) + NumeralValue(AfterUnit(g))
    ensures g == (if style.OldKanji? || FirstDigit(g) != 1 then [FirstDigit(g)] else []) + [FirstUnit(g)] + AfterUnit(g)
  {
    hide NumeralValue;
    TermsBound(style, AfterUnit(g), FirstUnit(g));
    if g[0] < 10 {
      assert g == [g[0], g[1]] + g[2..];
      TermMeant(g[0], g[1], g[2..]);
    } else {
      assert g == [g[0]] + g[1..];
      UnitMeant(g[0], g[1..]);
    }
  }

  lemma NoUnit(style: Style, g: seq<nat>, bound: nat)
    requires Terms(style, g, bound) && !HasUnit(g)
    ensures NumeralValue(g) < 10 && g == (if NumeralValue(g) == 0 then [] else [NumeralValue(g)])
  {
    NothingMeant();
    hide NumeralValue;
    if g != [] {
      assert g == [g[0]] && 1 <= g[0] < 10;
      DigitMeant(g[0]);
    }
    hide Terms;
  }

  lemma {:induction false} OneTerms(style: Style, a: seq<nat>, b: seq<nat>, bound: nat, bound': nat)
    requires Terms(style, a, bound) && Terms(style, b, bound') && Bound(bound) && Bound(bound')
    requires NumeralValue(a) == NumeralValue(b)
    ensures a == b
    decreases |a|
  {
    hide NumeralValue;
    hide Terms;
    if HasUnit(a) {
      UnitFirst(style, a, bound);
    } else {
      NoUnit(style, a, bound);
    }
    if HasUnit(b) {
      UnitFirst(style, b, bound');
    } else {
      NoUnit(style, b, bound');
    }
    if HasUnit(a) && HasUnit(b) {
      var u := FirstUnit(a);
      SameUnit(FirstDigit(a), u, NumeralValue(AfterUnit(a)), FirstDigit(b), FirstUnit(b), NumeralValue(AfterUnit(b)));
      Divided(FirstDigit(a), NumeralValue(AfterUnit(a)), FirstDigit(b), NumeralValue(AfterUnit(b)), u);
      OneTerms(style, AfterUnit(a), AfterUnit(b), u, u);
    }
  }

  lemma SameUnit(d: nat, u: nat, r: nat, d': nat, u': nat, r': nat)
    requires IsUnit(u) && IsUnit(u') && 1 <= d < 10 && 1 <= d' < 10 && r < u && r' < u'
    requires d * u + r == d' * u' + r'
    ensures u == u'
  {
  }

  lemma {:induction false} OneRun(a: seq<nat>, b: seq<nat>)
    requires AllDigits(a) && AllDigits(b) && (a != [] ==> a[0] != 0) && (b != [] ==> b[0] != 0) && Base10(a) == Base10(b)
    ensures a == b
    decreases |a|
  {
    if a == [] {
      if b != [] {
        NumberText.LeadingDigitCounts(b);
      }
    } else {
      NumberText.LeadingDigitCounts(a);
      if b == [] {
        assert false;
      } else {
        var front, front' := a[..|a| - 1], b[..|b| - 1];
        OneRun(front, front');
        assert a == front + [a[|a| - 1]] && b == front' + [b[|b| - 1]];
      }
    }
  }

  lemma OneCoefficient(style: Style, a: seq<nat>, b: seq<nat>)
    requires Coefficient(style, a) && Coefficient(style, b) && NumeralValue(a) == NumeralValue(b)
    ensures a == b
  {
    if UsesDigits(style) {
      DigitsMeant(a);
      DigitsMeant(b);
      hide NumeralValue;
      hide Base10;
      OneRun(a, b);
    } else {
      hide NumeralValue;
      hide Terms;
      OneTerms(style, a, b, 10000, 10000);
    }
  }

  lemma LargeFirst(style: Style, t: seq<nat>, rank: nat)
    requires WellSpelled(style, t, rank) && LargeAt(t) < |t|
    ensures var n := LargeAt(t);
            && t[n] == Scale(RankOf(t[n])) && t[n] >= 10000
            && NumeralValue(t) == NumeralValue(t[..n]) * t[n] + NumeralValue(t[n + 1..])
            && t[n] <= NumeralValue(t) < 10000 * t[n]
            && NumeralValue(t[n + 1..]) < t[n]
  {
    hide NumeralValue;
    hide Coefficient;
    hide Scale;
    var n := LargeAt(t);
    PartsSpelled(style, t, rank);
    hide WellSpelled;
    hide LargeAt;
    RankScale(t[n]);
    hide RankOf;
    CoefficientBound(style, t[..n]);
    SpelledBound(style, t[n + 1..], RankOf(t[n]));
    LargeMeant(t, n, RankOf(t[n]));
  }

  // The rank of the first larger word, if there is one.
  function FirstRank(t: seq<nat>): nat {
    if LargeAt(t) < |t| then RankOf(t[LargeAt(t)]) else 0
  }

  lemma FirstRankSays(style: Style, t: seq<nat>, rank: nat)
    requires WellSpelled(style, t, rank) && t != []
    ensures Scale(FirstRank(t)) <= NumeralValue(t) < 10000 * Scale(FirstRank(t))
    ensures FirstRank(t) == 0 <==> LargeAt(t) == |t|
    ensures LargeAt(t) == |t| ==> Coefficient(style, t)
  {
    hide NumeralValue;
    hide Coefficient;
    hide Scale;
    LowestScale();
    if LargeAt(t) < |t| {
      LargeFirst(style, t, rank);
    } else {
      CoefficientBound(style, t);
    }
  }

  lemma SameRank(r: nat, s: nat, v: nat)
    requires Scale(r) <= v < 10000 * Scale(r) && Scale(s) <= v < 10000 * Scale(s)
    ensures r == s
  {
    hide Scale;
    if r < s {
      ScaleRises(r, s);
    } else if s < r {
      ScaleRises(s, r);
    }
  }

  lemma SameParts(style: Style, a: seq<nat>, b: seq<nat>, rank: nat)
    requires WellSpelled(style, a, rank) && WellSpelled(style, b, rank) && NumeralValue(a) == NumeralValue(b)
    requires LargeAt(a) < |a| && LargeAt(b) < |b| && FirstRank(a) == FirstRank(b)
    ensures var n, m := LargeAt(a), LargeAt(b);
            && a[n] == b[m]
            && NumeralValue(a[..n]) == NumeralValue(b[..m]) && NumeralValue(a[n + 1..]) == NumeralValue(b[m + 1..])
  {
    hide NumeralValue;
    hide Coefficient;
    hide Scale;
    LargeFirst(style, a, rank);
    LargeFirst(style, b, rank);
    hide WellSpelled;
    var n, m := LargeAt(a), LargeAt(b);
    Divided(NumeralValue(a[..n]), NumeralValue(a[n + 1..]), NumeralValue(b[..m]), NumeralValue(b[m + 1..]), a[n]);
  }

  // What is well spelled and means the same number is the same.
  lemma {:induction false} OneSpelling(style: Style, a: seq<nat>, b: seq<nat>, rank: nat)
    requires WellSpelled(style, a, rank) && WellSpelled(style, b, rank) && rank >= 1 && NumeralValue(a) == NumeralValue(b)
    ensures a == b
    decreases |a|
  {
    hide NumeralValue;
    hide Coefficient;
    hide Scale;
    hide WellSpelled;
    hide LargeAt;
    hide RankOf;
    SpelledBound(style, a, rank);
    SpelledBound(style, b, rank);
    NothingMeant();
    if a != [] && b != [] {
      FirstRankSays(style, a, rank);
      FirstRankSays(style, b, rank);
      SameRank(FirstRank(a), FirstRank(b), NumeralValue(a));
      var n, m := LargeAt(a), LargeAt(b);
      if n == |a| {
        OneCoefficient(style, a, b);
      } else {
        SameParts(style, a, b, rank);
        PartsSpelled(style, a, rank);
        PartsSpelled(style, b, rank);
        OneCoefficient(style, a[..n], b[..m]);
        OneSpelling(style, a[n + 1..], b[m + 1..], RankOf(a[n]));
        Cut(a, n);
        Cut(b, m);
      }
    }
  }

  // ---- What is offered is well spelled.

  lemma {:induction false} HigherRank(style: Style, t: seq<nat>, rank: nat, rank': nat)
    requires WellSpelled(style, t, rank) && rank <= rank'
    ensures WellSpelled(style, t, rank')
  {
  }

  lemma {:induction false} HigherBound(style: Style, g: seq<nat>, bound: nat, bound': nat)
    requires Terms(style, g, bound) && bound <= bound'
    ensures Terms(style, g, bound')
  {
  }

  lemma PlaceTerms(style: Style, digit: nat, place: nat, rest: seq<nat>)
    requires digit < 10 && place < 3 && !UsesDigits(style) && Terms(style, rest, Unit(place))
    ensures Terms(style, PlaceWords(style, digit, place) + rest, Unit(place) * 10)
  {
    var words, u := PlaceWords(style, digit, place), Unit(place);
    assert IsUnit(u);
    if digit == 0 {
      assert words + rest == rest;
      HigherBound(style, rest, u, u * 10);
    } else {
      hide Terms;
      assert words == (if style.OldKanji? || digit != 1 then [digit] else []) + [u];
      TermsMore(style, digit, u, rest);
    }
  }

  lemma TermsMore(style: Style, digit: nat, u: nat, rest: seq<nat>)
    requires 1 <= digit < 10 && IsUnit(u) && Terms(style, rest, u)
    ensures Terms(style, (if style.OldKanji? || digit != 1 then [digit] else []) + [u] + rest, u * 10)
  {
    var g := (if style.OldKanji? || digit != 1 then [digit] else []) + [u] + rest;
    if style.OldKanji? || digit != 1 {
      assert g[0] == digit && g[1] == u && g[2..] == rest;
    } else {
      assert g[0] == u && g[1..] == rest;
    }
  }

  lemma OnesTerms(style: Style, digit: nat)
    requires digit < 10 && !UsesDigits(style)
    ensures Terms(style, PlaceWords(style, digit, 3), 10)
  {
  }

  lemma PlacesTerms(style: Style, g: seq<nat>)
    requires |g| == 4 && AllDigits(g) && !UsesDigits(style)
    ensures Terms(style, PlacesWords(style, g, 4), 10000)
  {
    hide Terms;
    hide PlaceWords;
    hide PlacesWords;
    var r3 := PlaceWords(style, g[3], 3);
    var r2 := PlaceWords(style, g[2], 2) + r3;
    var r1 := PlaceWords(style, g[1], 1) + r2;
    OnesTerms(style, g[3]);
    PlaceTerms(style, g[2], 2, r3);
    PlaceTerms(style, g[1], 1, r2);
    PlaceTerms(style, g[0], 0, r1);
    FourPlaces(style, g);
    assert PlacesWords(style, g, 4) == PlaceWords(style, g[0], 0) + r1;
  }

  lemma GroupCoefficient(style: Style, g: seq<nat>)
    requires |g| == 4 && AllDigits(g)
    ensures GroupWords(style, g) == [] || Coefficient(style, GroupWords(style, g))
  {
    if !UsesDigits(style) {
      PlacesTerms(style, g);
    }
    hide Terms;
    hide PlacesWords;
  }

  lemma {:induction false} LargeAfter(g: seq<nat>, large: nat, rest: seq<nat>)
    requires Small(g) && large >= 10000
    ensures LargeAt(g + [large] + rest) == |g|
  {
    if g == [] {
      assert (g + [large] + rest)[0] == large;
    } else {
      LargeAfter(g[1..], large, rest);
      assert (g + [large] + rest)[1..] == g[1..] + [large] + rest;
    }
  }

  lemma NoLarge(g: seq<nat>)
    requires Small(g)
    ensures LargeAt(g) == |g|
  {
    hide LargeAt;
  }

  lemma RankOfScale(rank: nat)
    requires 1 <= rank < MAX_RANKS
    ensures RankOf(Scale(rank)) == rank && Scale(rank) >= 10000
  {
    ScaleSpellable(Kanji, rank);
    assert Scale(1) == 10000 * Scale(0);
    assert Scale(2) == 10000 * Scale(1);
    assert Scale(3) == 10000 * Scale(2);
    assert Scale(4) == 10000 * Scale(3);
  }

  lemma SpelledMore(style: Style, g: seq<nat>, rank: nat, rest: seq<nat>)
    requires Coefficient(style, g) && 1 <= rank < MAX_RANKS && WellSpelled(style, rest, rank)
    ensures WellSpelled(style, g + [Scale(rank)] + rest, rank + 1)
  {
    hide Coefficient;
    hide Scale;
    var t := g + [Scale(rank)] + rest;
    CoefficientBound(style, g);
    RankOfScale(rank);
    LargeAfter(g, Scale(rank), rest);
    assert t[..|g|] == g && t[|g| + 1..] == rest;
  }

  lemma CoefficientSpelled(style: Style, g: seq<nat>, rank: nat)
    requires g == [] || Coefficient(style, g)
    ensures WellSpelled(style, g, rank)
  {
    hide Coefficient;
    if g != [] {
      CoefficientBound(style, g);
      NoLarge(g);
    }
  }

  lemma WordsMore(style: Style, groups: seq<seq<nat>>, n: nat)
    requires Groups(groups) && 2 <= n <= |groups|
    ensures var g, rest := GroupWords(style, groups[n - 1]), Words(style, groups, n - 1);
            Words(style, groups, n) == if g == [] then rest else g + [Scale(n - 1)] + rest
  {
    hide GroupWords;
    hide Scale;
  }

  lemma {:induction false} WordsWellSpelled(style: Style, groups: seq<seq<nat>>, n: nat)
    requires Groups(groups) && 1 <= n <= |groups| <= MAX_RANKS
    ensures WellSpelled(style, Words(style, groups, n), n)
    decreases n
  {
    hide GroupWords;
    hide Coefficient;
    hide Scale;
    hide WellSpelled;
    hide Words;
    var g := GroupWords(style, groups[n - 1]);
    GroupCoefficient(style, groups[n - 1]);
    if n == 1 {
      LowestWords(style, groups);
      CoefficientSpelled(style, g, 1);
    } else {
      WordsMore(style, groups, n);
      WordsWellSpelled(style, groups, n - 1);
      if g == [] {
        HigherRank(style, Words(style, groups, n - 1), n - 1, n);
      } else {
        SpelledMore(style, g, n - 1, Words(style, groups, n - 1));
      }
    }
  }

  // The only well spelled words of a style that mean a number.
  ghost predicate OnlyWords(style: Style, words: seq<nat>, v: nat) {
    && WellSpelled(style, words, MAX_RANKS) && NumeralValue(words) == v
    && AllSpellable(style, words) && (!UsesDigits(style) ==> 0 !in words)
    && forall other :: WellSpelled(style, other, MAX_RANKS) && NumeralValue(other) == v ==> other == words
  }

  lemma TextSpelled(style: Style, s: string) returns (words: seq<nat>)
    requires s != "" && IsDecimal(s) && |s| <= 4 * MAX_RANKS
    ensures OnlyWords(style, words, ValueOf(s)) && AllSpellable(style, words)
    ensures TextOf(style, GroupsOf(Filled(s))) == Spelled(style, words)
  {
    var groups := GroupsOf(Filled(s));
    words := Words(style, groups, |groups|);
    hide Words;
    hide Spelled;
    hide GroupsOf;
    hide Filled;
    hide ValueOf;
    hide WellSpelled;
    hide ReadAll;
    WordsSpellable(style, groups, |groups|);
    GroupsValueOf(s);
    WordsReading(style, 0, groups, |groups|);
    NumberText.NoLeadingZero(style, groups, |groups|);
    WordsWellSpelled(style, groups, |groups|);
    HigherRank(style, words, |groups|, MAX_RANKS);
    forall other | WellSpelled(style, other, MAX_RANKS) && NumeralValue(other) == ValueOf(s) ensures other == words {
      OneSpelling(style, other, words, MAX_RANKS);
    }
  }

  // The text of a candidate, by the words of its style.
  predicate Offers(c: NumberString, words: seq<nat>, v: nat)
    requires AllSpellable(c.style, words)
  {
    || c.value == Spelled(c.style, words)
    || (c.style.OldKanji? && c.value == WithTwenty(Spelled(c.style, words)))
    || (c.style.OldKanji? && c.value == "拾" && v == 10)
    || (c.style.OldKanji? && c.value == "阡" && v == 1000)
  }

  lemma StyleSpelled(style: Style, s: string, c: NumberString) returns (words: seq<nat>)
    requires s != "" && IsDecimal(s) && |s| <= 4 * MAX_RANKS && c in CandidatesOf(style, Filled(s))
    ensures c.style == style && OnlyWords(style, words, ValueOf(s)) && AllSpellable(style, words)
    ensures Offers(c, words, ValueOf(s))
  {
    hide OnlyWords;
    hide AllSpellable;
    hide TextOf;
    hide WithTwenty;
    hide Spelled;
    hide GroupsOf;
    hide Filled;
    hide ValueOf;
    hide Contains;
    TenOrThousand(s);
    words := TextSpelled(style, s);
  }

  // Every candidate that is offered is spelled by the only well spelled words of its
  // style that mean the number, or by these with the character for twenty, or is one
  // of the two characters that stand for ten and for a thousand.
  lemma CandidateSpelled(s: string, c: NumberString) returns (words: seq<nat>)
    requires c in Converted(s) && !AllZeros(s)
    ensures IsDecimal(s) && OnlyWords(c.style, words, ValueOf(s)) && AllSpellable(c.style, words)
    ensures Offers(c, words, ValueOf(s))
  {
    hide OnlyWords;
    hide AllSpellable;
    hide CandidatesOf;
    hide Offers;
    var i := NumberText.CandidateStyle(Filled(s), 4, c);
    hide Candidates;
    words := StyleSpelled(STYLES[i], s, c);
  }

  lemma FourCharacters(f: string)
    requires |f| == 4
    ensures f == [f[0], f[1], f[2], f[3]]
  {
  }

  lemma FourValue(f: string)
    requires |f| == 4 && IsDecimal(f)
    ensures f == "0010" <==> ValueOf(f) == 10
    ensures f == "1000" <==> ValueOf(f) == 1000
  {
    FourDigits(Digits(f));
    hide Base10;
    FourCharacters(f);
  }

  lemma TenOrThousand(s: string)
    requires IsDecimal(s)
    ensures Filled(s) == "0010" <==> |s| <= 4 && s != "" && ValueOf(s) == 10
    ensures Filled(s) == "1000" <==> |s| <= 4 && s != "" && ValueOf(s) == 1000
  {
    FilledValue(s);
    if |s| <= 4 && s != "" {
      FourValue(Filled(s));
    }
    hide Base10;
    hide Digits;
    hide Filled;
  }

  // ---- Characters.

  function Characters(style: Style): string {
    match style
    case ArabicAndKanjiHalfwidth => "0123456789万億兆京"
    case ArabicAndKanjiFullwidth => "０１２３４５６７８９万億兆京"
    case Kanji => "一二三四五六七八九十百千万億兆京"
    case OldKanji => "壱弐参四五六七八九拾百阡萬億兆京廿"
  }

  predicate From(text: string, characters: string) {
    forall k :: 0 <= k < |text| ==> text[k] in characters
  }

  lemma OwnCharacter(style: Style, word: nat)
    requires Spellable(style, word) && (!UsesDigits(style) ==> word != 0)
    ensures WordText(style, word) in Characters(style)
  {
  }

  lemma SpelledFrom(style: Style, words: seq<nat>)
    requires AllSpellable(style, words) && (!UsesDigits(style) ==> 0 !in words)
    ensures From(Spelled(style, words), Characters(style))
  {
    forall k | 0 <= k < |words| ensures WordText(style, words[k]) in Characters(style) {
      OwnCharacter(style, words[k]);
    }
    hide WordText;
    hide Characters;
    hide Spellable;
  }

  lemma {:induction false} TwentyFrom(text: string)
    requires From(text, Characters(OldKanji))
    ensures From(WithTwenty(text), Characters(OldKanji))
  {
    assert '廿' in Characters(OldKanji);
    hide Characters;
    if |text| >= 2 {
      if text[..2] == OLD_TWO_TEN {
        TwentyFrom(text[2..]);
      } else {
        TwentyFrom(text[1..]);
      }
    }
  }

  // ---- Ones and units.

  lemma {:induction false} TermsOnes(g: seq<nat>, bound: nat)
    requires Terms(Kanji, g, bound)
    ensures forall k :: 0 <= k < |g| && g[k] == 1 ==> k == |g| - 1
    decreases |g|
  {
    if |g| >= 2 {
      var n := if g[0] < 10 then 2 else 1;
      TermsOnes(g[n..], g[n - 1]);
      forall k | n <= k < |g| ensures g[k] == g[n..][k - n] {
      }
    }
  }

  // A one that is spelled is the last word of its coefficient.
  lemma {:induction false} SpelledOnes(t: seq<nat>, rank: nat)
    requires WellSpelled(Kanji, t, rank)
    ensures forall k :: 0 <= k < |t| && t[k] == 1 ==> k == |t| - 1 || t[k + 1] >= 10000
    decreases |t|
  {
    var n := LargeAt(t);
    var g := t[..n];
    if g != [] {
      assert n == |t| ==> g == t;
      TermsOnes(g, 10000);
    }
    hide Terms;
    forall k | 0 <= k < n && t[k] == 1 ensures k == n - 1 {
      assert g[k] == 1;
    }
    if n < |t| {
      SpelledOnes(t[n + 1..], RankOf(t[n]));
      forall k | n < k < |t| ensures t[k] == t[n + 1..][k - n - 1] {
      }
    }
  }

  // A unit comes after a digit; the flag is whether a digit comes before the words.
  predicate UnitsLed(digit: bool, words: seq<nat>)
    decreases |words|
  {
    words == [] || ((IsUnit(words[0]) ==> digit) && UnitsLed(words[0] < 10, words[1..]))
  }

  lemma {:induction false} LedJoined(digit: bool, a: seq<nat>, b: seq<nat>)
    requires UnitsLed(digit, a) && UnitsLed(false, b)
    ensures UnitsLed(digit, a + b)
    decreases |a|
  {
    if a == [] {
      assert a + b == b;
    } else {
      LedJoined(a[0] < 10, a[1..], b);
      assert (a + b)[1..] == a[1..] + b;
    }
  }

  lemma {:induction false} TermsLed(g: seq<nat>, bound: nat)
    requires Terms(OldKanji, g, bound)
    ensures UnitsLed(false, g)
    decreases |g|
  {
    if |g| >= 2 {
      TermsLed(g[2..], g[1]);
      assert g[1..][1..] == g[2..];
    }
  }

  lemma LargeLed(large: nat)
    requires large >= 10000
    ensures UnitsLed(false, [large])
  {
  }

  // A unit of the old style has a digit before it.
  lemma {:induction false} SpelledUnits(t: seq<nat>, rank: nat)
    requires WellSpelled(OldKanji, t, rank)
    ensures UnitsLed(false, t)
    decreases |t|
  {
    hide Terms;
    hide RankOf;
    hide UnitsLed;
    var n := LargeAt(t);
    if n < |t| {
      var rest := t[n + 1..];
      SpelledUnits(rest, RankOf(t[n]));
      TermsLed(t[..n], 10000);
      LargeLed(t[n]);
      LedJoined(false, t[..n], [t[n]]);
      LedJoined(false, t[..n] + [t[n]], rest);
      Cut(t, n);
    } else if t != [] {
      TermsLed(t, 10000);
    } else {
      NoneLed();
    }
  }

  lemma NoneLed()
    ensures UnitsLed(false, [])
  {
  }

  const OLD_DIGITS := "壱弐参四五六七八九"
  const OLD_UNITS := "拾百阡"

  // A unit comes after a digit; this is whether a digit comes before the text.
  predicate Led(digit: bool, text: string)
    decreases |text|
  {
    text == "" || ((text[0] in OLD_UNITS ==> digit) && Led(text[0] in OLD_DIGITS, text[1..]))
  }

  lemma {:induction false} LedAt(digit: bool, text: string, k: nat)
    requires Led(digit, text) && k < |text| && text[k] in OLD_UNITS
    ensures if k == 0 then digit else text[k - 1] in OLD_DIGITS
    decreases k
  {
    if k > 0 {
      LedAt(text[0] in OLD_DIGITS, text[1..], k - 1);
    }
  }

  lemma OldCharacter(word: nat)
    requires Spellable(OldKanji, word)
    ensures WordText(OldKanji, word) in OLD_UNITS <==> IsUnit(word)
    ensures WordText(OldKanji, word) in OLD_DIGITS <==> word < 10
  {
  }

  lemma {:induction false} SpelledLed(words: seq<nat>, digit: bool)
    requires AllSpellable(OldKanji, words) && UnitsLed(digit, words)
    ensures Led(digit, Spelled(OldKanji, words))
    decreases |words|
  {
    if words != [] {
      var text := Spelled(OldKanji, words);
      OldCharacter(words[0]);
      SpelledLed(words[1..], words[0] < 10);
      assert text[1..] == Spelled(OldKanji, words[1..]);
      assert text[0] == WordText(OldKanji, words[0]);
      hide WordText;
      assert (text[0] in OLD_DIGITS) == (words[0] < 10);
    }
  }

  lemma {:induction false} TwentyLed(digit: bool, text: string)
    requires Led(digit, text)
    ensures Led(digit, WithTwenty(text))
    decreases |text|
  {
    if |text| >= 2 {
      if text[..2] == OLD_TWO_TEN {
        assert text[1] == text[..2][1] == '拾' && text[1..][1..] == text[2..];
        TwentyLed(false, text[2..]);
        assert WithTwenty(text) == "廿" + WithTwenty(text[2..]);
        assert WithTwenty(text)[1..] == WithTwenty(text[2..]);
      } else {
        TwentyLed(text[0] in OLD_DIGITS, text[1..]);
        assert WithTwenty(text)[1..] == WithTwenty(text[1..]);
      }
    }
  }

  // What any candidate but zero looks like: it has the characters of its style only;
  // a Kanji one stands at the end or before a larger character only; and in the old
  // style every unit has a digit before it, except when it stands alone.
  lemma CandidateCharacters(s: string, c: NumberString)
    requires c in Converted(s) && !AllZeros(s)
    ensures From(c.value, Characters(c.style))
    ensures c.style.Kanji? ==>
              forall k :: 0 <= k < |c.value| && c.value[k] == '一' ==> k == |c.value| - 1 || c.value[k + 1] in "万億兆京"
    ensures c.style.OldKanji? && |c.value| > 1 ==>
              forall k :: 0 <= k < |c.value| && c.value[k] in OLD_UNITS ==> k > 0 && c.value[k - 1] in OLD_DIGITS
  {
    var words := CandidateSpelled(s, c);
    SpelledFrom(c.style, words);
    hide Converted;
    hide ValueOf;
    hide WordText;
    hide NumeralValue;
    match c.style {
      case Kanji =>
        SpelledOnes(words, MAX_RANKS);
        KanjiOnes(words);
      case OldKanji =>
        SpelledUnits(words, MAX_RANKS);
        SpelledLed(words, false);
        TwentyLed(false, Spelled(OldKanji, words));
        TwentyFrom(Spelled(OldKanji, words));
        hide WithTwenty;
        hide Led;
        if |c.value| > 1 {
          forall k | 0 <= k < |c.value| && c.value[k] in OLD_UNITS ensures k > 0 && c.value[k - 1] in OLD_DIGITS {
            LedAt(false, c.value, k);
          }
        }
      case _ =>
    }
  }

  lemma KanjiOne(word: nat)
    requires Spellable(Kanji, word)
    ensures WordText(Kanji, word) == '一' <==> word == 1
    ensures word >= 10000 ==> WordText(Kanji, word) in "万億兆京"
  {
  }

  lemma KanjiOnes(words: seq<nat>)
    requires AllSpellable(Kanji, words)
    requires forall k :: 0 <= k < |words| && words[k] == 1 ==> k == |words| - 1 || words[k + 1] >= 10000
    ensures var text := Spelled(Kanji, words);
            forall k :: 0 <= k < |text| && text[k] == '一' ==> k == |text| - 1 || text[k + 1] in "万億兆京"
  {
    forall k | 0 <= k < |words|
      ensures (WordText(Kanji, words[k]) == '一' <==> words[k] == 1)
              && (words[k] >= 10000 ==> WordText(Kanji, words[k]) in "万億兆京")
    {
      KanjiOne(words[k]);
    }
    hide WordText;
    hide Spellable;
  }

  // ---- Which candidates there are.

  // One in each style, in order: the two with Arabic digits only for a number that has
  // more than four.
  function Plain(s: string, groups: seq<seq<nat>>): seq<NumberString>
    requires Groups(groups) && |groups| <= MAX_RANKS
  {
    (if |s| > 4 then [Candidate(ArabicAndKanjiHalfwidth, groups), Candidate(ArabicAndKanjiFullwidth, groups)] else [])
    + [Candidate(Kanji, groups), Candidate(OldKanji, groups)]
  }

  function Old(text: string): NumberString {
    NumberString(text, "大字", OldKanji)
  }

  // The further ones in the old style.
  function Extras(s: string, text: string): seq<NumberString>
    requires IsDecimal(s)
  {
    (if Contains(text, OLD_TWO_TEN) then [Old(WithTwenty(text))] else [])
    + (if |s| <= 4 && ValueOf(s) == 10 then [Old("拾")] else [])
    + (if |s| <= 4 && ValueOf(s) == 1000 then [Old("阡")] else [])
  }

  lemma FourStyles(filled: string)
    requires IsDecimal(filled) && |filled| % 4 == 0 && |filled| <= 4 * MAX_RANKS
    ensures Candidates(filled, 4) ==
            CandidatesOf(ArabicAndKanjiHalfwidth, filled) + CandidatesOf(ArabicAndKanjiFullwidth, filled)
            + CandidatesOf(Kanji, filled) + CandidatesOf(OldKanji, filled)
  {
    hide CandidatesOf;
    assert Candidates(filled, 1) == CandidatesOf(STYLES[0], filled);
    assert Candidates(filled, 2) == Candidates(filled, 1) + CandidatesOf(STYLES[1], filled);
    assert Candidates(filled, 3) == Candidates(filled, 2) + CandidatesOf(STYLES[2], filled);
  }

  lemma OldList(s: string, text: string)
    requires s != "" && IsDecimal(s)
    ensures OldCandidates(Filled(s), text) == [Old(text)] + Extras(s, text)
  {
    TenOrThousand(s);
    hide Filled;
    hide ValueOf;
    hide Contains;
    hide WithTwenty;
  }

  lemma StyleList(style: Style, s: string)
    requires s != "" && IsDecimal(s) && |s| <= 4 * MAX_RANKS && !style.OldKanji?
    ensures CandidatesOf(style, Filled(s)) ==
            if UsesDigits(style) && |s| <= 4 then [] else [Candidate(style, GroupsOf(Filled(s)))]
  {
    hide TextOf;
    hide GroupsOf;
  }

  lemma Joined(half: seq<NumberString>, full: seq<NumberString>, kanji: NumberString, older: NumberString, extras: seq<NumberString>)
    ensures half + full + [kanji] + ([older] + extras) == half + full + [kanji, older] + extras
  {
  }

  lemma ConvertedIs(s: string)
    requires s != "" && IsDecimal(s) && |s| <= 4 * MAX_RANKS && !AllZeros(s)
    ensures Converted(s) == Candidates(Filled(s), 4)
  {
    hide Candidates;
    hide Filled;
  }

  lemma OldIs(filled: string)
    requires IsDecimal(filled) && |filled| % 4 == 0 && |filled| <= 4 * MAX_RANKS
    ensures CandidatesOf(OldKanji, filled) == OldCandidates(filled, TextOf(OldKanji, GroupsOf(filled)))
    ensures Candidate(OldKanji, GroupsOf(filled)) == Old(TextOf(OldKanji, GroupsOf(filled)))
  {
    hide OldCandidates;
    hide TextOf;
    hide GroupsOf;
  }

  lemma PlainIs(s: string, half: seq<NumberString>, full: seq<NumberString>, groups: seq<seq<nat>>)
    requires Groups(groups) && |groups| <= MAX_RANKS
    requires half == if |s| <= 4 then [] else [Candidate(ArabicAndKanjiHalfwidth, groups)]
    requires full == if |s| <= 4 then [] else [Candidate(ArabicAndKanjiFullwidth, groups)]
    ensures Plain(s, groups) == half + full + [Candidate(Kanji, groups), Candidate(OldKanji, groups)]
  {
    hide Candidate;
  }

  // A number is offered once in each of its styles, and then in its further spellings;
  // nothing else is.
  lemma CandidateList(s: string)
    requires s != "" && IsDecimal(s) && |s| <= 4 * MAX_RANKS && !AllZeros(s)
    ensures var groups := GroupsOf(Filled(s)); Converted(s) == Plain(s, groups) + Extras(s, TextOf(OldKanji, groups))
  {
    var f, groups := Filled(s), GroupsOf(Filled(s));
    var text := TextOf(OldKanji, groups);
    var half, full := CandidatesOf(ArabicAndKanjiHalfwidth, f), CandidatesOf(ArabicAndKanjiFullwidth, f);
    assert UsesDigits(ArabicAndKanjiHalfwidth) && UsesDigits(ArabicAndKanjiFullwidth) && !UsesDigits(Kanji);
    hide *;
    ConvertedIs(s);
    FourStyles(f);
    StyleList(ArabicAndKanjiHalfwidth, s);
    StyleList(ArabicAndKanjiFullwidth, s);
    StyleList(Kanji, s);
    OldIs(f);
    OldList(s, text);
    PlainIs(s, half, full, groups);
    Joined(half, full, Candidate(Kanji, groups), Candidate(OldKanji, groups), Extras(s, text));
  }

  // Anything but digits is refused, and so are more than twenty digits, unless they are
  // zeros.
  lemma RefusedIff(s: string)
    ensures Converted(s) == [] <==> s == "" || !IsDecimal(s) || (|s| > 4 * MAX_RANKS && !AllZeros(s))
  {
    if s != "" && IsDecimal(s) && |s| <= 4 * MAX_RANKS && !AllZeros(s) {
      CandidateList(s);
    }
    hide Candidates;
  }
}
