// What the numerals that are accepted look like: the terms they add up, and
// exactly when some of their words are passed over.
module NumberShape {
  import opened NumberParser
  import opened NumberReading

  // ---- The terms.

  datatype Term = Term(coefficient: nat, base: nat)

  function Terms(t: seq<nat>): seq<Term>
    decreases |t|
  {
    hide ReduceUnder10000;
    var g := ReduceUnder10000(t);
    Under10000Rest(t);
    if g.rest == [] then [Term(g.num, 1)] else [Term(g.num, g.rest[0])] + (if |g.rest| == 1 then [] else Terms(g.rest[1..]))
  }

  function TermSum(terms: seq<Term>): nat {
    if terms == [] then 0 else terms[0].coefficient * terms[0].base + TermSum(terms[1..])
  }

  // Coefficients below 10000; bases that strictly decrease, each at least 10000
  // but for the last, which may be 1.
  predicate Scaled(terms: seq<Term>, bound: nat) {
    terms != [] ==>
      && 1 <= terms[0].coefficient < 10000
      && terms[0].base < bound
      && (terms[0].base >= 10000 || (terms[0].base == 1 && |terms| == 1))
      && Scaled(terms[1..], terms[0].base)
  }

  lemma {:induction false} InterpretedTerms(t: seq<nat>, output: nat, lastBase: nat)
    requires InterpretFrom(t, output, lastBase).Value? && 1 < lastBase
    ensures InterpretFrom(t, output, lastBase).value == output + TermSum(Terms(t))
    ensures Terms(t) != [] && Scaled(Terms(t), lastBase)
    decreases |t|
  {
    hide ReduceUnder10000;
    var g := ReduceUnder10000(t);
    Under10000Bound(t);
    if |g.rest| > 1 {
      Under10000Rest(t);
      InterpretedTerms(g.rest[1..], output + g.num * g.rest[0], g.rest[0]);
      assert Terms(t) == [Term(g.num, g.rest[0])] + Terms(g.rest[1..]);
      assert Terms(t)[1..] == Terms(g.rest[1..]);
    }
  }

  // ---- The words passed over.

  // A unit at j, then zeros, and from i on two or more digits that do not fit
  // below the unit, or that a further unit below ten thousand follows.
  predicate Misfit(t: seq<nat>, j: int, i: int) {
    && 0 <= j < i < |t| - 1 && t[j] in {100, 1000} && (forall k :: j < k < i ==> t[k] == 0)
    && 1 <= t[i] < 10 && t[i + 1] < 10
    && var z := t[i..]; var n := RunLength(z);
       (Base10(z[..n]) >= t[j] || (n < |z| && z[n] < 10000))
  }

  lemma MisfitShift(t: seq<nat>, u: nat, j: int, i: int)
    requires u <= j < |t|
    ensures Misfit(t, j, i) <==> u <= i && Misfit(t[u..], j - u, i - u)
  {
    hide Base10;
    hide RunLength;
    if u <= i < |t| {
      assert t[u..][i - u..] == t[i..];
      if Misfit(t[u..], j - u, i - u) {
        forall k | j < k < i ensures t[k] == 0 {
          assert t[u..][k - u] == t[k];
        }
      }
    }
  }

  lemma {:induction false} ZerosCounted(t: seq<nat>, n: nat)
    requires n < |t| && t[n] != 0 && forall k :: 0 <= k < n ==> t[k] == 0
    ensures AfterZeros(t) == t[n..]
  {
    if n > 0 {
      ZerosCounted(t[1..], n - 1);
    }
  }

  // After the unit of a misfit, the next place finds it.
  lemma MisfitDrops(t: seq<nat>, j: int, i: int, base: nat)
    requires Misfit(t, j, i) && t[j] == base * 10
    ensures ReduceDigits(t[j + 1..], base).dropped != []
  {
    hide Base10;
    var rest := t[j + 1..];
    ZerosCounted(rest, i - (j + 1));
    assert rest[i - (j + 1)..] == t[i..];
  }

  lemma MisfitDropped(t: seq<nat>, j: nat, base: nat)
    requires j < |t| && t[j] == base * 10 && base in {10, 100} && ReduceDigits(t[j + 1..], base).dropped != []
    ensures Misfit(t, j, |t| - |ReduceDigits(t[j + 1..], base).dropped|)
  {
    hide Base10;
    hide RunLength;
    hide ZeroCount;
    var rest := t[j + 1..];
    var n := ZeroCount(rest);
    var i := j + 1 + n;
    SliceJoin(t, j + 1, n);
    forall k | j < k < i ensures t[k] == 0 {
      assert rest[k - j - 1] == t[k];
    }
  }

  // The words one place takes are digits, but for a unit at the end.
  lemma WordsTaken(t: seq<nat>, base: nat, k: nat)
    requires base in {10, 100, 1000}
    ensures var r := ReduceDigits(t, base);
            && |r.rest| + |r.dropped| <= |t|
            && (r.dropped == [] && k < |t| - |r.rest| ==>
                  t[k] < 10 || (k == |t| - |r.rest| - 1 && (t[k] == base || (base == 10 && t[k] == 20))))
  {
    hide Base10;
    var n, z := ZeroCount(t), AfterZeros(t);
    if n <= k < |t| {
      assert z[k - n] == t[k];
    }
  }

  lemma UnitTaken(t: seq<nat>, base: nat)
    requires base in {100, 1000} && ReduceDigits(t, base).ok && !Done(ReduceDigits(t, base).rest)
    ensures var n := |t| - |ReduceDigits(t, base).rest|; 1 <= n && t[n - 1] == base
  {
    hide Base10;
    var n, z := ZeroCount(t), AfterZeros(t);
    if z[0] < 10 {
      assert z[1] == t[n + 1];
    } else {
      assert z[0] == t[n];
    }
  }

  lemma PlaceRest(t: seq<nat>, base: nat)
    ensures var r := ReduceDigits(t, base);
            && |r.rest| <= |t| && r.rest == t[|t| - |r.rest|..]
            && (r.dropped != [] ==> !r.ok && r.rest == [] && r.dropped != t[..0])
  {
    DigitsRest(t, base);
  }

  // A misfit lies beyond the words of a coefficient in which nothing is dropped.
  lemma MisfitBeyond(t: seq<nat>, j: int, i: int)
    requires ReduceUnder10000(t).dropped == [] && Misfit(t, j, i)
    ensures j >= |t| - |ReduceUnder10000(t).rest|
  {
    hide ReduceDigits;
    hide Misfit;
    var thousands := ReduceDigits(t, 1000);
    var hundreds := ReduceDigits(thousands.rest, 100);
    var tens := ReduceDigits(hundreds.rest, 10);
    MisfitUnit(t, j, i);
    BeyondPlace(t, j, i, 1000);
    var j1, i1 := j - (|t| - |thousands.rest|), i - (|t| - |thousands.rest|);
    BeyondPlace(thousands.rest, j1, i1, 100);
    var j2, i2 := j1 - (|thousands.rest| - |hundreds.rest|), i1 - (|thousands.rest| - |hundreds.rest|);
    BeyondPlace(hundreds.rest, j2, i2, 10);
    var j3 := j2 - (|hundreds.rest| - |tens.rest|);
    MisfitUnit(tens.rest, j3, i2 - (|hundreds.rest| - |tens.rest|));
  }

  lemma MisfitUnit(t: seq<nat>, j: int, i: int)
    requires Misfit(t, j, i)
    ensures 0 <= j < i < |t| && t[j] in {100, 1000}
  {
  }

  lemma BeyondPlace(t: seq<nat>, j: int, i: int, base: nat)
    requires base in {10, 100, 1000} && Misfit(t, j, i)
    requires var r := ReduceDigits(t, base); r.dropped == [] && (base > 10 ==> ReduceDigits(r.rest, base / 10).dropped == [])
    ensures var u := |t| - |ReduceDigits(t, base).rest|; 0 <= u <= j && u <= i && Misfit(ReduceDigits(t, base).rest, j - u, i - u)
  {
    hide ReduceDigits;
    hide Misfit;
    var r := ReduceDigits(t, base);
    var u := |t| - |r.rest|;
    MisfitUnit(t, j, i);
    PlaceRest(t, base);
    WordsTaken(t, base, j);
    if j < u {
      assert t[j] == base == (base / 10) * 10 && t[j + 1..] == r.rest;
      MisfitDrops(t, j, i, base / 10);
      assert false;
    }
    MisfitShift(t, u, j, i);
  }

  lemma {:induction false} MisfitFound(t: seq<nat>, output: nat, lastBase: nat, j: int, i: int)
    requires Misfit(t, j, i)
    ensures var r := InterpretFrom(t, output, lastBase); r.Value? ==> r.dropped != []
    decreases |t|
  {
    hide ReduceUnder10000;
    hide Misfit;
    var g, r := ReduceUnder10000(t), InterpretFrom(t, output, lastBase);
    MisfitUnit(t, j, i);
    if r.Value? && r.dropped == [] {
      Under10000Rest(t);
      Under10000Bound(t);
      var u := |t| - |g.rest|;
      NothingDroppedBefore(t);
      MisfitBeyond(t, j, i);
      assert g.rest[0] == t[u];
      MisfitShift(t, u + 1, j, i);
      assert g.rest[1..] == t[u + 1..];
      MisfitUnit(t[u + 1..], j - (u + 1), i - (u + 1));
      MisfitFound(g.rest[1..], output + g.num * g.rest[0], g.rest[0], j - (u + 1), i - (u + 1));
    }
  }

  lemma NothingDroppedBefore(t: seq<nat>)
    ensures var g := ReduceUnder10000(t); g.rest != [] ==> g.dropped == []
  {
    hide ReduceDigits;
    var thousands := ReduceDigits(t, 1000);
    var hundreds := ReduceDigits(thousands.rest, 100);
    PlaceRest(t, 1000);
    PlaceRest(thousands.rest, 100);
    PlaceRest(hundreds.rest, 10);
  }

  // A place that gives up on a run of digits comes after a unit ten times its own.
  lemma RunRefusedAgain(t: seq<nat>, base: nat)
    requires base in {100, 1000} && !ReduceDigits(t, base).ok && ReduceDigits(t, base).dropped == []
    ensures ReduceDigits(ReduceDigits(t, base).rest, base / 10).dropped == []
  {
    hide Base10;
    hide RunLength;
    var z := AfterZeros(t);
    if z != [] {
      assert AfterZeros(z) == z;
    }
  }

  lemma DroppedAfterUnit(t: seq<nat>, base: nat)
    requires base in {100, 1000}
    requires ReduceDigits(t, base).dropped == [] && ReduceDigits(ReduceDigits(t, base).rest, base / 10).dropped != []
    ensures var u := |t| - |ReduceDigits(t, base).rest|;
            1 <= u && Misfit(t, u - 1, |t| - |ReduceDigits(ReduceDigits(t, base).rest, base / 10).dropped|)
  {
    hide ReduceDigits;
    hide Misfit;
    var r := ReduceDigits(t, base);
    PlaceRest(t, base);
    if !r.ok {
      RunRefusedAgain(t, base);
      assert false;
    } else if Done(r.rest) {
      DoneStays(r.rest, base / 10);
      assert false;
    } else {
      UnitTaken(t, base);
      MisfitDropped(t, |t| - |r.rest| - 1, base / 10);
    }
  }

  lemma DroppedMisfit(t: seq<nat>) returns (j: int)
    requires ReduceUnder10000(t).ok && ReduceUnder10000(t).dropped != []
    ensures Misfit(t, j, |t| - |ReduceUnder10000(t).dropped|)
  {
    hide ReduceDigits;
    hide Misfit;
    var thousands := ReduceDigits(t, 1000);
    var hundreds := ReduceDigits(thousands.rest, 100);
    var tens := ReduceDigits(hundreds.rest, 10);
    PlaceRest(t, 1000);
    PlaceRest(thousands.rest, 100);
    PlaceRest(hundreds.rest, 10);
    DoneStays([], 100);
    DoneStays([], 10);
    assert thousands.dropped == [];
    assert ReduceUnder10000(t).dropped == hundreds.dropped + tens.dropped;
    if hundreds.dropped != [] {
      assert tens.dropped == [];
      DroppedAfterUnit(t, 1000);
      j := |t| - |thousands.rest| - 1;
    } else {
      DroppedAfterUnit(thousands.rest, 100);
      var u := |t| - |thousands.rest|;
      j := |t| - |hundreds.rest| - 1;
      MisfitUnit(thousands.rest, j - u, |thousands.rest| - |tens.dropped|);
      MisfitShift(t, u, j, |t| - |tens.dropped|);
    }
  }

  lemma {:induction false} DroppedFound(t: seq<nat>, output: nat, lastBase: nat) returns (j: int)
    requires InterpretFrom(t, output, lastBase).Value? && InterpretFrom(t, output, lastBase).dropped != []
    ensures Misfit(t, j, |t| - |InterpretFrom(t, output, lastBase).dropped|)
    decreases |t|
  {
    hide ReduceUnder10000;
    hide Misfit;
    var g, r := ReduceUnder10000(t), InterpretFrom(t, output, lastBase);
    if g.rest == [] {
      j := DroppedMisfit(t);
    } else {
      Under10000Rest(t);
      var u := |t| - |g.rest| + 1;
      assert g.rest[1..] == t[u..];
      j := DroppedFound(t[u..], output + g.num * g.rest[0], g.rest[0]);
      MisfitUnit(t[u..], j, |t[u..]| - |r.dropped|);
      j := j + u;
      MisfitShift(t, u, j, |t| - |r.dropped|);
    }
  }

  // An accepted numeral has its whole value exactly when it has no misfit; with
  // one, its value is too small.
  lemma ValueIffNoMisfit(t: seq<nat>)
    requires Normalized(t).Value?
    ensures Normalized(t).value == NumeralValue(t) <==> !exists j, i :: Misfit(t, j, i)
    ensures Normalized(t).value <= NumeralValue(t)
  {
    hide InterpretFrom;
    hide NumeralValue;
    ExactIffNothingDropped(t);
    if AllDigits(t) {
      forall j, i ensures !Misfit(t, j, i) {
      }
    } else {
      if j, i :| Misfit(t, j, i) {
        MisfitFound(t, 0, WORD_LIMIT - 1, j, i);
      }
      if Normalized(t).dropped != [] {
        var j := DroppedFound(t, 0, WORD_LIMIT - 1);
      }
    }
  }
}
