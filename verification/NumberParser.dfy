// src/base/number_util.cc: the reading of a sequence of number words, each word
// standing for its value (nine for 九, ten thousand for 万). An iterator of the
// source is a position in the sequence, handed in and out.
module NumberParser {
  const WORD_LIMIT: int := 0x1_0000_0000_0000_0000

  type u64 = x: int | 0 <= x < WORD_LIMIT

  // ---- Overflow-checked arithmetic.

  // A result in the source's 64-bit arithmetic.
  function Wrapped(x: nat): u64 {
    x % WORD_LIMIT
  }

  method AddAndCheckOverflow(a: u64, b: u64) returns (ok: bool, output: u64)
    ensures ok <==> a + b < WORD_LIMIT
    ensures output == if ok then a + b else Wrapped(a + b)
  {
    output := Wrapped(a + b);
    if b > WORD_LIMIT - 1 - a {
      return false, output;
    }
    ok := true;
  }

  lemma ProductFits(a: nat, b: nat, limit: nat)
    requires 0 < a
    ensures b > limit / a <==> limit < a * b
  {
    var q, r := limit / a, limit % a;
    assert limit == a * q + r;
    if b > q {
      assert a * b >= a * (q + 1) == a * q + a;
    } else {
      assert a * b <= a * q;
    }
  }

  method MultiplyAndCheckOverflow(a: u64, b: u64) returns (ok: bool, output: u64)
    ensures ok <==> a * b < WORD_LIMIT
    ensures output == if ok then a * b else Wrapped(a * b)
  {
    output := Wrapped(a * b);
    if a != 0 {
      ProductFits(a, b, WORD_LIMIT - 1);
      if b > (WORD_LIMIT - 1) / a {
        return false, output;
      }
    }
    ok := true;
  }

  // ---- What each reduction does, on the words still to be read.

  // How many words at the front are zeros.
  function ZeroCount(t: seq<nat>): (n: nat)
    ensures n <= |t| && (forall k :: 0 <= k < n ==> t[k] == 0) && (n < |t| ==> t[n] != 0)
  {
    if t == [] || t[0] != 0 then 0 else 1 + ZeroCount(t[1..])
  }

  // The words after the leading zeros.
  function AfterZeros(t: seq<nat>): seq<nat> {
    t[ZeroCount(t)..]
  }

  // How many words at the front are single digits.
  function RunLength(t: seq<nat>): (n: nat)
    ensures n <= |t| && (forall k :: 0 <= k < n ==> t[k] < 10) && (n < |t| ==> t[n] >= 10)
  {
    if t == [] || t[0] >= 10 then 0 else 1 + RunLength(t[1..])
  }

  // The value of digits written in base ten, most significant first.
  function Base10(d: seq<nat>): (v: nat) {
    if d == [] then 0 else Base10(d[..|d| - 1]) * 10 + d[|d| - 1]
  }

  // The outcome of a reduction: the words left to read, and those that were
  // passed over without being read.
  datatype Reduced = Reduced(ok: bool, rest: seq<nat>, num: nat, dropped: seq<nat>)

  function ReduceDigits(t: seq<nat>, base: nat): (r: Reduced) {
    ReduceAfterZeros(AfterZeros(t), base)
  }

  function ReduceAfterZeros(z: seq<nat>, base: nat): (r: Reduced) {
    if z == [] then Reduced(false, [], 0, [])
    else if z[0] < 10 then
      if |z| < 2 then Reduced(false, z, 0, [])
      else if z[1] < 10 then ReduceRun(z, base)
      else if z[1] != base || (z[0] == 1 && base != 1000) then Reduced(false, z, 0, [])
      else Reduced(true, z[2..], z[0] * base, [])
    else if z[0] == base || (base == 10 && z[0] == 20) then Reduced(true, z[1..], z[0], [])
    else Reduced(false, z, 0, [])
  }

  // Two or more digits in a row must be all of the coefficient that is left.
  function ReduceRun(z: seq<nat>, base: nat): Reduced {
    var n := RunLength(z);
    if Base10(z[..n]) < base * 10 && (n == |z| || z[n] >= 10000) then Reduced(true, z[n..], Base10(z[..n]), [])
    else Reduced(false, [], 0, z)
  }

  function ReduceOnes(t: seq<nat>): Reduced {
    if t == [] || t[0] >= 10 then Reduced(false, t, 0, []) else Reduced(true, t[1..], t[0], [])
  }

  function Then(first: Reduced, second: Reduced): Reduced {
    Reduced(first.ok || second.ok, second.rest, first.num + second.num, first.dropped + second.dropped)
  }

  function ReduceUnder10000(t: seq<nat>): Reduced {
    var thousands := ReduceDigits(t, 1000);
    var hundreds := Then(thousands, ReduceDigits(thousands.rest, 100));
    var tens := Then(hundreds, ReduceDigits(hundreds.rest, 10));
    var all := Then(tens, ReduceOnes(tens.rest));
    all.(ok := all.ok && (all.rest == [] || all.rest[0] >= 10000))
  }

  datatype Reading = Failed | Value(value: nat, dropped: seq<nat>)

  // A failed reduction adds nothing, and the words left are a suffix of the words given.
  lemma DigitsRest(t: seq<nat>, base: nat)
    ensures var r := ReduceDigits(t, base);
            |r.rest| <= |t| && r.rest == t[|t| - |r.rest|..] && (!r.ok ==> r.num == 0) && (r.ok ==> r.dropped == [])
    ensures var r := ReduceDigits(t, base); r.ok ==> |r.rest| < |t|
  {
  }

  lemma Under10000Rest(t: seq<nat>)
    ensures var r := ReduceUnder10000(t); |r.rest| <= |t| && r.rest == t[|t| - |r.rest|..]
  {
    hide ReduceDigits;
    var thousands := ReduceDigits(t, 1000);
    var hundreds := ReduceDigits(thousands.rest, 100);
    DigitsRest(t, 1000);
    DigitsRest(thousands.rest, 100);
    DigitsRest(hundreds.rest, 10);
  }

  function InterpretFrom(t: seq<nat>, output: nat, lastBase: nat): Reading
    decreases |t|
  {
    hide ReduceUnder10000;
    var g := ReduceUnder10000(t);
    if !g.ok then Failed
    else if g.rest == [] then (if output + g.num < WORD_LIMIT then Value(output + g.num, g.dropped) else Failed)
    else if g.rest[0] >= lastBase then Failed
    else if output + g.num * g.rest[0] >= WORD_LIMIT then Failed
    else if |g.rest| == 1 then Value(output + g.num * g.rest[0], [])
    else
      Under10000Rest(t);
      InterpretFrom(g.rest[1..], output + g.num * g.rest[0], g.rest[0])
  }

  predicate AllDigits(t: seq<nat>) {
    forall k :: 0 <= k < |t| ==> t[k] < 10
  }

  function Normalized(t: seq<nat>): Reading {
    if t == [] then Failed
    else if AllDigits(t) then (if Base10(t) < WORD_LIMIT then Value(Base10(t), []) else Failed)
    else InterpretFrom(t, 0, WORD_LIMIT - 1)
  }

  // ---- The source's procedures.

  lemma Base10Prefix(d: seq<nat>, n: nat)
    requires n <= |d|
    ensures Base10(d[..n]) <= Base10(d)
  {
    if n < |d| {
      Base10Prefix(d[..|d| - 1], n);
      assert d[..|d| - 1][..n] == d[..n];
    } else {
      assert d[..n] == d;
    }
  }

  // One more digit of the run that starts at begin.
  lemma RunGrows(t: seq<nat>, begin: nat, at: nat)
    requires begin <= at <= |t|
    requires forall k :: begin <= k < at ==> t[k] < 10
    ensures at <= begin + RunLength(t[begin..])
    ensures at < |t| && t[at] < 10 ==> Base10(t[begin..at + 1]) == Base10(t[begin..at]) * 10 + t[at]
    ensures at == |t| || t[at] >= 10 ==> at == begin + RunLength(t[begin..])
  {
    hide RunLength;
    var n := RunLength(t[begin..]);
    assert n < |t| - begin ==> t[begin..][n] == t[begin + n];
    if at < |t| && t[at] < 10 {
      assert t[begin..at + 1][..at - begin] == t[begin..at];
    }
  }

  lemma RunOverflows(t: seq<nat>, begin: nat, at: nat)
    requires begin <= at <= |t|
    requires forall k :: begin <= k < at ==> t[k] < 10
    ensures Base10(t[begin..at]) <= Base10(t[begin..][..RunLength(t[begin..])])
  {
    hide Base10;
    var n := RunLength(t[begin..]);
    RunGrows(t, begin, at);
    Base10Prefix(t[begin..][..n], at - begin);
    assert t[begin..][..n][..at - begin] == t[begin..at];
  }

  method ReduceLeadingNumbersAsBase10System(t: seq<u64>, begin: nat) returns (ok: bool, next: nat, output: u64)
    requires begin <= |t|
    ensures begin <= next <= |t|
    ensures ok <==> Base10(t[begin..][..RunLength(t[begin..])]) < WORD_LIMIT
    ensures ok ==> next == begin + RunLength(t[begin..]) && output == Base10(t[begin..][..RunLength(t[begin..])])
  {
    hide Wrapped;
    hide RunLength;
    ghost var n := RunLength(t[begin..]);
    next, output := begin, 0;
    while next < |t|
      invariant begin <= next <= |t|
      invariant forall k :: begin <= k < next ==> t[k] < 10
      invariant output == Base10(t[begin..next])
    {
      RunGrows(t, begin, next);
      if t[next] >= 10 {
        break;
      }
      ok, output := MultiplyAndCheckOverflow(output, 10);
      if ok {
        ok, output := AddAndCheckOverflow(output, t[next]);
      }
      if !ok {
        RunOverflows(t, begin, next + 1);
        return;
      }
      next := next + 1;
    }
    RunGrows(t, begin, next);
    assert t[begin..next] == t[begin..][..n];
    ok := true;
  }

  method InterpretNumbersAsBase10System(t: seq<u64>) returns (ok: bool, output: u64)
    ensures ok <==> AllDigits(t) && Base10(t) < WORD_LIMIT
    ensures ok ==> output == Base10(t)
  {
    assert t[0..] == t;
    var next;
    ok, next, output := ReduceLeadingNumbersAsBase10System(t, 0);
    ghost var n := RunLength(t);
    if n == |t| {
      assert t[..n] == t;
    } else {
      assert t[n] >= 10;
    }
    ok := ok && next == |t|;
  }

  method ReduceOnesDigit(t: seq<u64>, begin: nat) returns (ok: bool, next: nat, num: u64)
    requires begin <= |t|
    ensures begin <= next <= |t|
    ensures var r := ReduceOnes(t[begin..]); ok == r.ok && t[next..] == r.rest && num == r.num
  {
    if begin == |t| || t[begin] >= 10 {
      return false, begin, 0;
    }
    ok, next, num := true, begin + 1, t[begin];
  }

  lemma ZeroSkipped(t: seq<nat>, at: nat)
    requires at < |t| && t[at] == 0
    ensures AfterZeros(t[at..]) == AfterZeros(t[at + 1..])
  {
    assert t[at..][1..] == t[at + 1..];
  }

  // The loop over leading zeros in ReduceDigitsHelper.
  method SkipZeros(t: seq<u64>, begin: nat) returns (next: nat)
    requires begin <= |t|
    ensures begin <= next <= |t| && t[next..] == AfterZeros(t[begin..])
  {
    next := begin;
    while next != |t| && t[next] == 0
      invariant begin <= next <= |t|
      invariant AfterZeros(t[begin..]) == AfterZeros(t[next..])
      decreases |t| - next
    {
      ZeroSkipped(t, next);
      next := next + 1;
    }
  }

  method ReduceDigitsHelper(t: seq<u64>, begin: nat, expectedBase: u64) returns (ok: bool, next: nat, num: u64)
    requires begin <= |t| && 10 <= expectedBase <= 1000
    ensures begin <= next <= |t|
    ensures var r := ReduceDigits(t[begin..], expectedBase); ok == r.ok && t[next..] == r.rest && (ok ==> num == r.num)
  {
    hide AfterZeros;
    hide RunLength;
    hide Base10;
    num := 0;
    next := SkipZeros(t, begin);
    ghost var z := t[next..];
    if next == |t| {
      return false, next, num;
    }
    var leading := t[next];
    if leading < 10 {
      if |t| - next < 2 {
        return false, next, num;
      }
      var second := t[next + 1];
      if second < 10 {
        ghost var start := next;
        var fits;
        fits, next, num := ReduceLeadingNumbersAsBase10System(t, next);
        assert fits ==> t[next..] == z[RunLength(z)..];
        if !fits || num >= expectedBase * 10 || (next != |t| && t[next] < 10000) {
          next := |t|;
          return false, next, num;
        }
        return true, next, num;
      }
      if second != expectedBase || (leading == 1 && expectedBase != 1000) {
        return false, next, num;
      }
      num := leading * expectedBase;
      next := next + 2;
      return true, next, num;
    }
    if leading == expectedBase || (expectedBase == 10 && leading == 20) {
      num := leading;
      next := next + 1;
      return true, next, num;
    }
    return false, next, num;
  }

  // The additions below never overflow.
  lemma DigitsBound(t: seq<nat>, base: nat)
    requires base in {10, 100, 1000}
    ensures ReduceDigits(t, base).ok ==> 1 <= ReduceDigits(t, base).num < base * 10
    ensures !ReduceDigits(t, base).ok ==> ReduceDigits(t, base).num == 0
  {
    var z := AfterZeros(t);
    if z != [] && z[0] < 10 && |z| >= 2 && z[1] < 10 {
      var n := RunLength(z);
      assert z[..n][..1] == [z[0]];
      Base10Prefix(z[..n], 1);
    }
  }

  lemma Under10000Parts(t: seq<nat>, thousands: Reduced, hundreds: Reduced, tens: Reduced, ones: Reduced)
    requires thousands == ReduceDigits(t, 1000) && hundreds == ReduceDigits(thousands.rest, 100)
    requires tens == ReduceDigits(hundreds.rest, 10) && ones == ReduceOnes(tens.rest)
    ensures var r := ReduceUnder10000(t);
            && r.num == thousands.num + hundreds.num + tens.num + ones.num
            && r.rest == ones.rest
            && r.ok == ((thousands.ok || hundreds.ok || tens.ok || ones.ok) && (r.rest == [] || r.rest[0] >= 10000))
  {
    hide ReduceDigits;
    hide ReduceOnes;
  }

  method ReduceNumberLessThan10000(t: seq<u64>, begin: nat) returns (ok: bool, next: nat, num: u64)
    requires begin <= |t|
    ensures begin <= next <= |t|
    ensures var r := ReduceUnder10000(t[begin..]); ok == r.ok && t[next..] == r.rest && num == r.num
  {
    hide ReduceDigits;
    hide ReduceOnes;
    hide ReduceUnder10000;
    num := 0;
    var success := false;
    var n;
    ghost var thousands := ReduceDigits(t[begin..], 1000);
    DigitsBound(t[begin..], 1000);
    ok, next, n := ReduceDigitsHelper(t, begin, 1000);
    if ok {
      num := num + n;
      success := true;
    }
    ghost var hundreds := ReduceDigits(t[next..], 100);
    DigitsBound(t[next..], 100);
    ok, next, n := ReduceDigitsHelper(t, next, 100);
    if ok {
      num := num + n;
      success := true;
    }
    ghost var tens := ReduceDigits(t[next..], 10);
    DigitsBound(t[next..], 10);
    ok, next, n := ReduceDigitsHelper(t, next, 10);
    if ok {
      num := num + n;
      success := true;
    }
    ghost var ones := ReduceOnes(t[next..]);
    OnesBound(t[next..]);
    ok, next, n := ReduceOnesDigit(t, next);
    if ok {
      num := num + n;
      success := true;
    }
    Under10000Parts(t[begin..], thousands, hundreds, tens, ones);
    ok := success && (next == |t| || t[next] >= 10000);
    assert next < |t| ==> t[next] == t[next..][0];
  }

  lemma OnesBound(t: seq<nat>)
    ensures var r := ReduceOnes(t); r.num < 10 && (!r.ok ==> r.num == 0)
  {
  }

  method InterpretNumbersInJapaneseWay(t: seq<u64>) returns (ok: bool, output: u64)
    requires t != []
    ensures ok <==> InterpretFrom(t, 0, WORD_LIMIT - 1).Value?
    ensures ok ==> output == InterpretFrom(t, 0, WORD_LIMIT - 1).value
  {
    hide ReduceUnder10000;
    var lastBase: u64 := WORD_LIMIT - 1;
    var begin := 0;
    output := 0;
    assert t[0..] == t;
    while true
      invariant 0 <= begin < |t|
      invariant InterpretFrom(t[begin..], output, lastBase) == InterpretFrom(t, 0, WORD_LIMIT - 1)
      decreases |t| - begin
    {
      hide Wrapped;
      ghost var rest := t[begin..];
      var coef, delta;
      ok, begin, coef := ReduceNumberLessThan10000(t, begin);
      if !ok {
        return;
      }
      if begin == |t| {
        ok, output := AddAndCheckOverflow(output, coef);
        return;
      }
      Under10000Rest(rest);
      assert t[begin..][0] == t[begin];
      if t[begin] >= lastBase {
        return false, output;
      }
      ghost var before := output;
      ok, delta := MultiplyAndCheckOverflow(coef, t[begin]);
      if ok {
        ok, output := AddAndCheckOverflow(output, delta);
      }
      if !ok {
        return;
      }
      lastBase := t[begin];
      assert t[begin..][1..] == t[begin + 1..];
      begin := begin + 1;
      if begin == |t| {
        break;
      }
    }
    ok := true;
  }

  // The position of the first maximum, or the end of an empty sequence.
  method MaxElement(t: seq<u64>) returns (at: nat)
    ensures t == [] ==> at == |t|
    ensures t != [] ==> at < |t| && forall k :: 0 <= k < |t| ==> t[k] <= t[at]
  {
    at := 0;
    var i := 1;
    while i < |t|
      invariant 0 <= at <= |t| && (t != [] ==> at < |t| && 1 <= i <= |t|)
      invariant t != [] ==> forall k :: 0 <= k < i ==> t[k] <= t[at]
    {
      if t[at] < t[i] {
        at := i;
      }
      i := i + 1;
    }
  }

  method NormalizeNumbersHelper(t: seq<u64>) returns (ok: bool, output: u64)
    ensures ok <==> Normalized(t).Value?
    ensures ok ==> output == Normalized(t).value
  {
    output := 0;
    var max := MaxElement(t);
    if max == |t| {
      return false, 0;
    }
    if t[max] < 10 {
      ok, output := InterpretNumbersAsBase10System(t);
      return;
    }
    ok, output := InterpretNumbersInJapaneseWay(t);
  }
}
