// Which numerals are read to their end: a grammar of the words, and that the parser
// takes exactly these, with the value they mean.
module NumberAccepted {
  import opened NumberParser
  import opened NumberReading
  import NumberSpelling
  import NumberShape

  // ---- The grammar.

  predicate IsBase(base: nat) {
    base == 10 || base == 100 || base == 1000
  }

  // How many words a unit takes at the front: one alone, or two with a digit before it,
  // which is not one except before a thousand. Twenty has a word of its own.
  function UnitSize(z: seq<nat>, base: nat): (n: nat)
    ensures n <= |z|
  {
    if z == [] then 0
    else if z[0] == base || (base == 10 && z[0] == 20) then 1
    else if |z| >= 2 && 1 <= z[0] < 10 && z[1] == base && (z[0] >= 2 || base == 1000) then 2
    else 0
  }

  predicate TwoDigits(z: seq<nat>) {
    |z| >= 2 && z[0] < 10 && z[1] < 10
  }

  // The words of a coefficient from the place of this base down: at each place zeros are
  // passed over, and then there may be the unit; or else two digits or more, that are
  // all there is and fit below ten of the unit. At the end one digit may stand. There
  // has to be something.
  predicate Readable(u: seq<nat>, base: nat, begun: bool)
    decreases base
  {
    if !IsBase(base) then (if u == [] then begun else |u| == 1 && u[0] < 10)
    else
      var z := AfterZeros(u);
      if TwoDigits(z) then AllDigits(z) && Base10(z) < base * 10
      else if UnitSize(z, base) > 0 then Readable(z[UnitSize(z, base)..], base / 10, true)
      else Readable(z, base / 10, begun)
  }

  // Coefficients, each but the last with a larger word after it, the larger words
  // descending.
  predicate Accepted(t: seq<nat>, bound: nat)
    decreases |t|
  {
    var n := NumberSpelling.LargeAt(t);
    && Readable(t[..n], 1000, false)
    && (n < |t| ==> t[n] < bound && (n + 1 == |t| || Accepted(t[n + 1..], t[n])))
  }

  // ---- One place.

  lemma ZerosBefore(u: seq<nat>, rest: seq<nat>)
    requires Done(rest)
    ensures AfterZeros(u + rest) == AfterZeros(u) + rest
  {
    hide ZeroCount;
    var n := ZeroCount(u);
    ZerosCounted(u, rest);
    assert (u + rest)[n..] == u[n..] + rest;
  }

  lemma ZerosAre(t: seq<nat>, n: nat)
    requires n <= |t| && (forall k :: 0 <= k < n ==> t[k] == 0) && (n < |t| ==> t[n] != 0)
    ensures ZeroCount(t) == n
  {
    hide ZeroCount;
  }

  lemma ZerosCounted(u: seq<nat>, rest: seq<nat>)
    requires Done(rest)
    ensures ZeroCount(u + rest) == ZeroCount(u)
  {
    hide ZeroCount;
    var t, n := u + rest, ZeroCount(u);
    assert forall k :: 0 <= k < n ==> t[k] == u[k];
    assert n < |t| ==> t[n] == if n < |u| then u[n] else rest[0];
    ZerosAre(t, n);
  }

  lemma RunIs(t: seq<nat>, n: nat)
    requires n <= |t| && (forall k :: 0 <= k < n ==> t[k] < 10) && (n < |t| ==> t[n] >= 10)
    ensures RunLength(t) == n
  {
    hide RunLength;
  }

  lemma RunBefore(z: seq<nat>, rest: seq<nat>)
    requires Done(rest)
    ensures RunLength(z + rest) == RunLength(z)
    ensures AllDigits(z) <==> RunLength(z) == |z|
  {
    hide RunLength;
    var t, n := z + rest, RunLength(z);
    assert forall k :: 0 <= k < n ==> t[k] == z[k];
    assert n < |t| ==> t[n] == if n < |z| then z[n] else rest[0];
    RunIs(t, n);
  }

  lemma RunReads(z: seq<nat>, rest: seq<nat>, base: nat)
    requires NumberSpelling.Small(z) && Done(rest) && IsBase(base) && TwoDigits(z) && z[0] != 0
    ensures var r := ReduceAfterZeros(z + rest, base);
            if AllDigits(z) && Base10(z) < base * 10 then r.ok && r.rest == rest && r.dropped == []
            else !r.ok && r.rest == [] && r.dropped != []
  {
    hide Base10;
    hide AllDigits;
    RunBefore(z, rest);
    hide RunLength;
    var t, n := z + rest, RunLength(z);
    assert t[..n] == z[..n] && t[0] == z[0] && t[1] == z[1];
    if n == |z| {
      assert z[..n] == z && t[n..] == rest;
    } else {
      assert t[n] == z[n];
    }
  }

  lemma UnitReads(z: seq<nat>, rest: seq<nat>, base: nat)
    requires NumberSpelling.Small(z) && Done(rest) && IsBase(base) && !TwoDigits(z) && (z != [] ==> z[0] != 0)
    ensures var r, n := ReduceAfterZeros(z + rest, base), UnitSize(z, base);
            if n > 0 then r.ok && r.rest == z[n..] + rest && r.dropped == [] else r == Reduced(false, z + rest, 0, [])
  {
    hide ReduceRun;
    var t, n := z + rest, UnitSize(z, base);
    if z == [] {
      assert t == rest;
    } else {
      assert t[0] == z[0] && (|z| >= 2 ==> t[1] == z[1]) && (|z| == 1 && rest != [] ==> t[1] == rest[0]);
      assert n > 0 ==> t[n..] == z[n..] + rest;
    }
  }

  // What the words of a coefficient leave to a place.
  lemma PlaceReads(z: seq<nat>, rest: seq<nat>, base: nat)
    requires NumberSpelling.Small(z) && Done(rest) && IsBase(base) && (z != [] ==> z[0] != 0)
    ensures var r := ReduceAfterZeros(z + rest, base);
            if TwoDigits(z) then
              if AllDigits(z) && Base10(z) < base * 10 then r.ok && r.rest == rest && r.dropped == []
              else !r.ok && r.rest == [] && r.dropped != []
            else if UnitSize(z, base) > 0 then r.ok && r.rest == z[UnitSize(z, base)..] + rest && r.dropped == []
            else r == Reduced(false, z + rest, 0, [])
  {
    hide ReduceAfterZeros;
    hide Base10;
    if TwoDigits(z) {
      RunReads(z, rest, base);
    } else {
      UnitReads(z, rest, base);
    }
  }

  // ---- The places from one down.

  function Places(done: Reduced, base: nat): Reduced
    decreases base
  {
    if !IsBase(base) then Then(done, ReduceOnes(done.rest))
    else Places(Then(done, ReduceDigits(done.rest, base)), base / 10)
  }

  lemma AllPlaces(t: seq<nat>)
    ensures var all := Places(Reduced(false, t, 0, []), 1000);
            ReduceUnder10000(t) == all.(ok := all.ok && Done(all.rest))
  {
    hide ReduceDigits;
    hide ReduceOnes;
    var start := Reduced(false, t, 0, []);
    var thousands := ReduceDigits(t, 1000);
    assert Then(start, thousands) == thousands;
    var hundreds := Then(thousands, ReduceDigits(thousands.rest, 100));
    var tens := Then(hundreds, ReduceDigits(hundreds.rest, 10));
    assert Places(tens, 1) == Then(tens, ReduceOnes(tens.rest));
    assert Places(hundreds, 10) == Places(tens, 1);
    assert Places(thousands, 100) == Places(hundreds, 10);
  }

  lemma {:induction false} NothingLeft(done: Reduced, base: nat)
    requires Done(done.rest) && (base == 1 || IsBase(base))
    ensures Places(done, base) == done
    decreases base
  {
    if IsBase(base) {
      DoneStays(done.rest, base);
      hide ReduceDigits;
      assert Then(done, Reduced(false, done.rest, 0, [])) == done;
      NothingLeft(done, base / 10);
    } else {
      assert Then(done, Reduced(false, done.rest, 0, [])) == done;
    }
  }

  lemma {:induction false} PlacesRead(done: Reduced, u: seq<nat>, rest: seq<nat>, base: nat)
    requires NumberSpelling.Small(u) && Done(rest) && (base == 1 || IsBase(base))
    requires done.rest == u + rest && done.dropped == []
    ensures var all := Places(done, base);
            if Readable(u, base, done.ok) then all.ok && all.rest == rest && all.dropped == []
            else !(all.ok && Done(all.rest) && all.dropped == [])
    decreases base
  {
    hide Base10;
    if !IsBase(base) {
      OnesRead(done, u, rest);
    } else {
      var z := AfterZeros(u);
      ZerosBefore(u, rest);
      PlaceReads(z, rest, base);
      var r := ReduceAfterZeros(z + rest, base);
      hide ReduceAfterZeros;
      hide AfterZeros;
      hide AllDigits;
      if TwoDigits(z) {
        NothingLeft(Then(done, r), base / 10);
      } else if UnitSize(z, base) > 0 {
        PlacesRead(Then(done, r), z[UnitSize(z, base)..], rest, base / 10);
      } else {
        PlacesRead(Then(done, r), z, rest, base / 10);
      }
    }
  }

  lemma OnesRead(done: Reduced, u: seq<nat>, rest: seq<nat>)
    requires NumberSpelling.Small(u) && Done(rest) && done.rest == u + rest && done.dropped == []
    ensures var all := Places(done, 1);
            if Readable(u, 1, done.ok) then all.ok && all.rest == rest && all.dropped == []
            else !(all.ok && Done(all.rest) && all.dropped == [])
  {
    var t := u + rest;
    if u == [] {
      assert t == rest;
    } else {
      assert t[0] == u[0];
      if u[0] < 10 {
        assert t[1..] == u[1..] + rest;
        if |u| == 1 {
          assert t[1..] == rest;
        } else {
          assert t[1..][0] == u[1];
        }
      }
    }
  }

  // A coefficient is read to its end exactly when it is readable, and then it counts
  // for what it means.
  lemma CoefficientReads(u: seq<nat>, rest: seq<nat>)
    requires NumberSpelling.Small(u) && Done(rest)
    ensures var g := ReduceUnder10000(u + rest);
            if Readable(u, 1000, false) then g.ok && g.rest == rest && g.dropped == [] && g.num == NumeralValue(u)
            else !(g.ok && g.dropped == [])
  {
    var t := u + rest;
    AllPlaces(t);
    PlacesRead(Reduced(false, t, 0, []), u, rest, 1000);
    hide Places;
    hide Readable;
    var g := ReduceUnder10000(t);
    hide ReduceUnder10000;
    if Readable(u, 1000, false) {
      var after := Under10000Reading(t, 0);
      hide ReadAll;
      assert t[..|t| - |rest|] == u;
    }
  }

  // ---- The whole numeral.

  lemma NoLargeLeft(t: seq<nat>, n: nat)
    requires n == NumberSpelling.LargeAt(t)
    ensures t == t[..n] + t[n..] && NumberSpelling.Small(t[..n]) && Done(t[n..])
  {
  }

  function Scaled(output: nat, v: nat, word: nat): nat {
    output + v * word
  }

  lemma InterpretUnfold(t: seq<nat>, output: nat, lastBase: nat, g: Reduced)
    requires g == ReduceUnder10000(t)
    ensures InterpretFrom(t, output, lastBase) ==
            if !g.ok then Failed
            else if g.rest == [] then (if output + g.num < WORD_LIMIT then Value(output + g.num, g.dropped) else Failed)
            else if g.rest[0] >= lastBase || Scaled(output, g.num, g.rest[0]) >= WORD_LIMIT then Failed
            else if |g.rest| == 1 then Value(Scaled(output, g.num, g.rest[0]), [])
            else InterpretFrom(g.rest[1..], Scaled(output, g.num, g.rest[0]), g.rest[0])
  {
    hide ReduceUnder10000;
  }

  // One coefficient of the interpretation, and the larger word after it if there is one.
  lemma OneCoefficient(t: seq<nat>, output: nat, lastBase: nat)
    ensures var n, r := NumberSpelling.LargeAt(t), InterpretFrom(t, output, lastBase);
            var v := NumeralValue(t[..n]);
            if !Readable(t[..n], 1000, false) then !(r.Value? && r.dropped == [])
            else if n == |t| then r == (if output + v < WORD_LIMIT then Value(output + v, []) else Failed)
            else if t[n] >= lastBase || Scaled(output, v, t[n]) >= WORD_LIMIT then r == Failed
            else if n + 1 == |t| then r == Value(Scaled(output, v, t[n]), [])
            else r == InterpretFrom(t[n + 1..], Scaled(output, v, t[n]), t[n])
  {
    hide *;
    var n := NumberSpelling.LargeAt(t);
    NoLargeLeft(t, n);
    CoefficientReads(t[..n], t[n..]);
    NumberShape.NothingDroppedBefore(t);
    InterpretUnfold(t, output, lastBase, ReduceUnder10000(t));
    if n < |t| {
      assert t[n..][1..] == t[n + 1..] && t[n..][0] == t[n];
    }
  }

  lemma ValueSplit(t: seq<nat>)
    ensures var n := NumberSpelling.LargeAt(t);
            NumeralValue(t) == if n == |t| then NumeralValue(t[..n]) else Scaled(NumeralValue(t[n + 1..]), NumeralValue(t[..n]), t[n])
  {
    hide NumeralValue;
    var n := NumberSpelling.LargeAt(t);
    if n < |t| {
      NumberSpelling.ScaledMeant(t[..n], t[n], t[n + 1..]);
      NumberSpelling.Cut(t, n);
    } else {
      assert t[..n] == t;
    }
  }

  lemma {:induction false} AcceptedReads(t: seq<nat>, output: nat, lastBase: nat)
    ensures var r := InterpretFrom(t, output, lastBase);
            r.Value? && r.dropped == [] <==> Accepted(t, lastBase) && output + NumeralValue(t) < WORD_LIMIT
    decreases |t|
  {
    hide Readable;
    hide NumeralValue;
    hide InterpretFrom;
    hide NumberSpelling.LargeAt;
    var n := NumberSpelling.LargeAt(t);
    OneCoefficient(t, output, lastBase);
    ValueSplit(t);
    if n + 1 == |t| {
      NumberSpelling.NothingMeant();
      assert t[n + 1..] == [];
    } else if n < |t| {
      AcceptedReads(t[n + 1..], Scaled(output, NumeralValue(t[..n]), t[n]), t[n]);
    }
  }

  lemma DigitsWhole(t: seq<nat>)
    requires t != [] && AllDigits(t)
    ensures Normalized(t) == if NumeralValue(t) < WORD_LIMIT then Value(NumeralValue(t), []) else Failed
  {
    NumberSpelling.DigitsMeant(t);
    hide NumeralValue;
    hide Base10;
  }

  lemma OthersWhole(t: seq<nat>)
    requires t != [] && !AllDigits(t)
    ensures var r := Normalized(t); r.Value? && r.dropped == [] <==> Accepted(t, WORD_LIMIT - 1) && NumeralValue(t) < WORD_LIMIT
  {
    AcceptedReads(t, 0, WORD_LIMIT - 1);
    hide InterpretFrom;
    hide NumeralValue;
    hide Accepted;
  }

  // A numeral is read whole, with the value that it means, exactly when its words are
  // all digits or form an accepted numeral, and the value fits 64 bits.
  lemma ReadWholeIff(t: seq<nat>)
    ensures var r := Normalized(t);
            r.Value? && r.dropped == [] <==>
            t != [] && (AllDigits(t) || Accepted(t, WORD_LIMIT - 1)) && NumeralValue(t) < WORD_LIMIT
    ensures var r := Normalized(t); r.Value? && r.dropped == [] ==> r.value == NumeralValue(t)
  {
    if t == [] {
      assert Normalized(t) == Failed;
    } else if AllDigits(t) {
      DigitsWhole(t);
    } else {
      OthersWhole(t);
    }
    hide *;
    if Normalized(t).Value? && Normalized(t).dropped == [] {
      WholeValue(t);
    }
  }

  lemma WholeValue(t: seq<nat>)
    requires Normalized(t).Value? && Normalized(t).dropped == []
    ensures Normalized(t).value == NumeralValue(t)
  {
    NormalizedReading(t);
    assert t[..|t| - 0] == t;
    hide Normalized;
    hide NumeralValue;
  }

  // ---- Examples.

  lemma NoZeros(u: seq<nat>)
    requires u == [] || u[0] != 0
    ensures AfterZeros(u) == u
  {
  }

  // A one is refused before ten and before a hundred, though not before a thousand.
  lemma OneBeforeUnit(base: nat, u: seq<nat>)
    requires IsBase(base)
    ensures Readable([1, base] + u, 1000, false) <==> base == 1000 && Readable(u, 100, true)
  {
    var t := [1, base] + u;
    NoZeros(t);
    hide AfterZeros;
    if base == 1000 {
      assert t[2..] == u;
    }
  }

  lemma OneWord(word: nat, base: nat)
    requires word >= 10 && IsBase(base)
    ensures Readable([word], base, false) <==> UnitSize([word], base) > 0 || (base > 10 && Readable([word], base / 10, false))
  {
    NoZeros([word]);
    hide AfterZeros;
    if UnitSize([word], base) > 0 {
      assert [word][1..] == [];
      NoneLeft(base / 10);
    }
  }

  lemma {:induction false} NoneLeft(base: nat)
    requires base == 1 || IsBase(base)
    ensures Readable([], base, true)
    decreases base
  {
    NoZeros([]);
    hide AfterZeros;
    if base > 1 {
      NoneLeft(base / 10);
    }
  }

  // Ten and twenty have words of their own that are read; thirty and forty do not.
  lemma WordsForTens(word: nat)
    requires word in {10, 20, 30, 40}
    ensures Readable([word], 1000, false) <==> word <= 20
  {
    hide Readable;
    OneWord(word, 1000);
    OneWord(word, 100);
    OneWord(word, 10);
  }
}
