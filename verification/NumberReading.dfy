// What a sequence of number words means, said without the parser: each digit
// extends the digits before it, a ten, hundred or thousand multiplies the digits
// before it (or stands alone), and a larger word multiplies all that came before
// it since the last larger word. The values here are unbounded.
module NumberReading {
  import opened NumberParser

  datatype Sum = Sum(total: nat, group: nat, run: nat)

  const NOTHING := Sum(0, 0, 0)

  function Read(s: Sum, word: nat): Sum {
    if word < 10 then s.(run := s.run * 10 + word)
    else if word < 10000 then Sum(s.total, s.group + (if s.run == 0 then 1 else s.run) * word, 0)
    else Sum(s.total + (s.group + s.run) * word, 0, 0)
  }

  function ReadAll(s: Sum, t: seq<nat>): Sum {
    if t == [] then s else Read(ReadAll(s, t[..|t| - 1]), t[|t| - 1])
  }

  function SumValue(s: Sum): nat {
    s.total + s.group + s.run
  }

  function NumeralValue(t: seq<nat>): nat {
    SumValue(ReadAll(NOTHING, t))
  }

  lemma {:induction false} ReadAllConcat(s: Sum, a: seq<nat>, b: seq<nat>)
    ensures ReadAll(s, a + b) == ReadAll(ReadAll(s, a), b)
  {
    hide Read;
    if b == [] {
      assert a + b == a;
    } else {
      var front := b[..|b| - 1];
      assert (a + b)[..|a + b| - 1] == a + front;
      ReadAllConcat(s, a, front);
    }
  }

  lemma {:induction false} ReadZeros(s: Sum, t: seq<nat>)
    requires s.run == 0 && forall k :: 0 <= k < |t| ==> t[k] == 0
    ensures ReadAll(s, t) == s
  {
    if t != [] {
      ReadZeros(s, t[..|t| - 1]);
    }
  }

  lemma {:induction false} ReadDigits(s: Sum, d: seq<nat>)
    requires s.run == 0 && AllDigits(d)
    ensures ReadAll(s, d) == s.(run := Base10(d))
  {
    if d != [] {
      ReadDigits(s, d[..|d| - 1]);
    }
  }

  // ---- One reduction.

  // Between s and after, the reduction r of the words t read all the words that
  // it neither left nor dropped.
  ghost predicate Reads(t: seq<nat>, s: Sum, r: Reduced, after: Sum) {
    && |r.rest| + |r.dropped| <= |t|
    && r.rest == t[|t| - |r.rest|..]
    && r.dropped == t[|t| - |r.rest| - |r.dropped|..|t| - |r.rest|]
    && (r.dropped != [] ==> r.rest == [])
    && ReadAll(s, t[..|t| - |r.rest| - |r.dropped|]) == after
  }

  // Parts of the end of a sequence, as parts of the whole.
  lemma EndParts(t: seq<nat>, end: seq<nat>, i: nat, j: nat)
    requires |end| <= |t| && end == t[|t| - |end|..] && i <= j <= |end|
    ensures end[i..j] == t[|t| - |end| + i..|t| - |end| + j]
    ensures end[j..] == t[|t| - |end| + j..]
    ensures t[..|t| - |end|] + end[..i] == t[..|t| - |end| + i]
  {
  }

  lemma ReadsAfterZeros(t: seq<nat>, s: Sum, r: Reduced, after: Sum)
    requires s.run == 0 && Reads(AfterZeros(t), s, r, after)
    ensures Reads(t, s, r, after)
  {
    hide ReadAll;
    hide ZeroCount;
    var n, z := ZeroCount(t), AfterZeros(t);
    var j := |z| - |r.rest|;
    ReadZeros(s, t[..n]);
    EndParts(t, z, j - |r.dropped|, j);
    ReadAllConcat(s, t[..n], z[..j - |r.dropped|]);
  }

  lemma NothingLeftReads(s: Sum, second: Reduced, after: Sum)
    requires Reads([], s, second, after)
    ensures second.rest == [] && second.dropped == [] && after == s
  {
  }

  lemma ReadsThenMore(t: seq<nat>, s: Sum, first: Reduced, middle: Sum, second: Reduced, after: Sum)
    requires Reads(t, s, first, middle) && Reads(first.rest, middle, second, after) && first.dropped == []
    ensures Reads(t, s, second, after)
  {
    hide ReadAll;
    var j := |first.rest| - |second.rest|;
    var i := j - |second.dropped|;
    var n := |t| - |first.rest|;
    EndParts(t, first.rest, i, j);
    ReadAllConcat(s, t[..n], first.rest[..i]);
    assert |t| - |second.rest| == n + j && |t| - |second.rest| - |second.dropped| == n + i;
  }

  lemma ReadsThen(t: seq<nat>, s: Sum, first: Reduced, middle: Sum, second: Reduced, after: Sum)
    requires Reads(t, s, first, middle) && Reads(first.rest, middle, second, after)
    ensures Reads(t, s, Then(first, second), after)
  {
    hide ReadAll;
    if first.dropped == [] {
      ReadsThenMore(t, s, first, middle, second, after);
      assert Then(first, second).dropped == second.dropped;
    } else {
      NothingLeftReads(middle, second, after);
      assert Then(first, second).dropped == first.dropped;
    }
  }

  // No reduction of digits takes anything from words that are used up or go on
  // with a large one.
  predicate Done(t: seq<nat>) {
    t == [] || t[0] >= 10000
  }

  lemma DoneStays(t: seq<nat>, base: nat)
    requires Done(t) && base in {10, 100, 1000}
    ensures ReduceDigits(t, base) == Reduced(false, t, 0, [])
  {
  }

  function AfterDigits(s: Sum, z: seq<nat>, base: nat): Sum {
    var r := ReduceAfterZeros(z, base);
    if r.ok && z[0] < 10 && z[1] < 10 then s.(run := r.num) else s.(group := s.group + r.num)
  }

  lemma ReadOne(s: Sum, word: nat)
    ensures ReadAll(s, [word]) == Read(s, word)
  {
    assert [word][..0] == [];
  }

  lemma ReadTwo(s: Sum, digit: nat, word: nat)
    ensures ReadAll(s, [digit, word]) == Read(Read(s, digit), word)
  {
    hide Read;
    ReadOne(s, digit);
    assert [digit, word][..1] == [digit];
  }

  lemma RunReading(s: Sum, z: seq<nat>, base: nat)
    requires s.run == 0 && ReduceRun(z, base).ok
    ensures Reads(z, s, ReduceRun(z, base), s.(run := ReduceRun(z, base).num))
  {
    hide Read;
    hide Base10;
    ReadDigits(s, z[..RunLength(z)]);
  }

  // A unit, with or without a digit before it, that a place has taken.
  lemma FrontReads(z: seq<nat>, s: Sum, n: nat, num: nat, after: Sum)
    requires n <= |z| && ReadAll(s, z[..n]) == after
    ensures Reads(z, s, Reduced(true, z[n..], num, []), after)
  {
    hide ReadAll;
  }

  lemma UnitAlone(s: Sum, z: seq<nat>)
    requires s.run == 0 && z != [] && 10 <= z[0] < 10000
    ensures ReadAll(s, z[..1]) == s.(group := s.group + z[0])
  {
    ReadOne(s, z[0]);
    assert z[..1] == [z[0]];
  }

  lemma UnitWithDigit(s: Sum, z: seq<nat>)
    requires s.run == 0 && |z| >= 2 && 1 <= z[0] < 10 && 10 <= z[1] < 10000
    ensures ReadAll(s, z[..2]) == s.(group := s.group + z[0] * z[1])
  {
    ReadTwo(s, z[0], z[1]);
    assert z[..2] == [z[0], z[1]];
  }

  lemma UnitReading(s: Sum, z: seq<nat>, base: nat)
    requires s.run == 0 && base in {10, 100, 1000} && z != [] && z[0] != 0 && (z[0] < 10 ==> |z| >= 2 && z[1] >= 10)
    requires ReduceAfterZeros(z, base).ok
    ensures Reads(z, s, ReduceAfterZeros(z, base), s.(group := s.group + ReduceAfterZeros(z, base).num))
  {
    hide Reads;
    hide ReadAll;
    if z[0] >= 10 {
      UnitAlone(s, z);
      FrontReads(z, s, 1, z[0], s.(group := s.group + z[0]));
    } else {
      UnitWithDigit(s, z);
      FrontReads(z, s, 2, z[0] * z[1], s.(group := s.group + z[0] * z[1]));
    }
  }

  lemma NothingReads(t: seq<nat>, s: Sum)
    ensures Reads(t, s, Reduced(false, t, 0, []), s)
    ensures Reads(t, s, Reduced(false, [], 0, t), s)
  {
    assert t[..0] == t[0..0] == [] && t[0..] == t[0..|t|] == t && t[|t|..] == [];
  }

  // What is read after the zeros, by the form the words have.
  lemma AfterZerosReading(s: Sum, z: seq<nat>, base: nat)
    requires s.run == 0 && base in {10, 100, 1000} && (z != [] ==> z[0] != 0)
    ensures Reads(z, s, ReduceAfterZeros(z, base), AfterDigits(s, z, base))
  {
    hide Reads;
    if !ReduceAfterZeros(z, base).ok {
      NothingReads(z, s);
    } else if z[0] < 10 && z[1] < 10 {
      RunReading(s, z, base);
    } else {
      UnitReading(s, z, base);
    }
  }

  lemma DigitsReading(s: Sum, t: seq<nat>, base: nat)
    requires s.run == 0 && base in {10, 100, 1000}
    ensures Reads(t, s, ReduceDigits(t, base), AfterDigits(s, AfterZeros(t), base))
    ensures var r := ReduceDigits(t, base);
            var after := AfterDigits(s, AfterZeros(t), base);
            && after.total == s.total && after.group + after.run == s.group + r.num
            && (after.run == 0 || Done(r.rest))
            && (r.dropped != [] ==> |r.dropped| >= 2 && 1 <= r.dropped[0] < 10)
  {
    hide Reads;
    hide Base10;
    AfterZerosReading(s, AfterZeros(t), base);
    ReadsAfterZeros(t, s, ReduceDigits(t, base), AfterDigits(s, AfterZeros(t), base));
  }

  // ---- One coefficient.

  // What the reductions of one coefficient, begun with this total, have read so far.
  ghost predicate Progress(t: seq<nat>, total: nat, done: Reduced, now: Sum) {
    && Reads(t, Sum(total, 0, 0), done, now)
    && now.total == total && now.group + now.run == done.num
    && (now.run == 0 || Done(done.rest))
    && (done.dropped != [] ==> |done.dropped| >= 2 && 1 <= done.dropped[0] < 10)
  }

  lemma ReadsWhetherOk(t: seq<nat>, s: Sum, r: Reduced, after: Sum, ok: bool)
    requires Reads(t, s, r, after)
    ensures Reads(t, s, r.(ok := ok), after)
  {
  }

  lemma ReadsSuffix(t: seq<nat>, s: Sum, r: Reduced, after: Sum)
    requires Reads(t, s, r, after)
    ensures r.dropped != [] ==> r.rest == []
  {
  }

  lemma Progresses(t: seq<nat>, total: nat, done: Reduced, now: Sum, base: nat) returns (after: Sum)
    requires Progress(t, total, done, now) && base in {10, 100, 1000}
    ensures Progress(t, total, Then(done, ReduceDigits(done.rest, base)), after)
  {
    hide Reads;
    hide ReduceDigits;
    var s := Sum(total, 0, 0);
    ReadsSuffix(t, s, done, now);
    if now.run == 0 {
      after := AfterDigits(now, AfterZeros(done.rest), base);
      DigitsReading(now, done.rest, base);
    } else {
      after := now;
      DoneStays(done.rest, base);
      NothingReads(done.rest, now);
    }
    if done.rest == [] {
      DoneStays(done.rest, base);
    }
    ReadsThen(t, s, done, now, ReduceDigits(done.rest, base), after);
  }

  lemma OnesReading(t: seq<nat>, s: Sum)
    requires s.run == 0 || Done(t)
    ensures var r := ReduceOnes(t);
            && Reads(t, s, r, s.(run := s.run + r.num))
            && r.dropped == []
  {
    if ReduceOnes(t).ok {
      ReadOne(s, t[0]);
      assert t[..1] == [t[0]];
      FrontReads(t, s, 1, t[0], s.(run := t[0]));
    } else {
      NothingReads(t, s);
    }
  }

  lemma ProgressesOnes(t: seq<nat>, total: nat, done: Reduced, now: Sum) returns (after: Sum)
    requires Progress(t, total, done, now)
    ensures var r := Then(done, ReduceOnes(done.rest));
            && Reads(t, Sum(total, 0, 0), r, after)
            && after.total == total && after.group + after.run == r.num
            && (r.dropped != [] ==> |r.dropped| >= 2 && 1 <= r.dropped[0] < 10)
  {
    hide Reads;
    hide ReduceOnes;
    var s, r := Sum(total, 0, 0), ReduceOnes(done.rest);
    ReadsSuffix(t, s, done, now);
    OnesReading(done.rest, now);
    after := now.(run := now.run + r.num);
    ReadsThen(t, s, done, now, r, after);
  }

  // Digits fill the place they are read for only when nothing smaller follows.
  lemma PlaceBound(t: seq<nat>, base: nat)
    requires base in {10, 100, 1000}
    ensures var r := ReduceDigits(t, base);
            r.num < base * 10 && (r.num <= base * 9 || Done(r.rest)) && (if r.ok then 1 <= r.num else r.rest == [] || r.rest[0] != 0)
  {
    DigitsBound(t, base);
  }

  lemma Under10000Bound(t: seq<nat>)
    ensures ReduceUnder10000(t).num < 10000
    ensures ReduceUnder10000(t).ok ==> 1 <= ReduceUnder10000(t).num && Done(ReduceUnder10000(t).rest)
  {
    hide ReduceDigits;
    var thousands := ReduceDigits(t, 1000);
    var hundreds := ReduceDigits(thousands.rest, 100);
    var tens := ReduceDigits(hundreds.rest, 10);
    PlaceBound(t, 1000);
    PlaceBound(thousands.rest, 100);
    PlaceBound(hundreds.rest, 10);
    if Done(thousands.rest) {
      DoneStays(thousands.rest, 100);
    }
    if Done(hundreds.rest) {
      DoneStays(hundreds.rest, 10);
    }
  }

  lemma ProgressBegins(t: seq<nat>, total: nat)
    ensures Progress(t, total, Reduced(false, t, 0, []), Sum(total, 0, 0))
  {
    NothingReads(t, Sum(total, 0, 0));
  }

  lemma Under10000Reading(t: seq<nat>, total: nat) returns (after: Sum)
    ensures var g := ReduceUnder10000(t);
            && Reads(t, Sum(total, 0, 0), g, after)
            && after.total == total && after.group + after.run == g.num
            && (g.dropped != [] ==> |g.dropped| >= 2 && 1 <= g.dropped[0] < 10)
  {
    hide ReduceDigits;
    hide ReduceOnes;
    hide Progress;
    hide Reads;
    var start := Reduced(false, t, 0, []);
    var thousands := ReduceDigits(t, 1000);
    var hundreds := Then(thousands, ReduceDigits(thousands.rest, 100));
    var tens := Then(hundreds, ReduceDigits(hundreds.rest, 10));
    ProgressBegins(t, total);
    after := Progresses(t, total, start, Sum(total, 0, 0), 1000);
    assert Then(start, thousands) == thousands;
    after := Progresses(t, total, thousands, after, 100);
    after := Progresses(t, total, hundreds, after, 10);
    after := ProgressesOnes(t, total, tens, after);
    ReadsWhetherOk(t, Sum(total, 0, 0), Then(tens, ReduceOnes(tens.rest)), after, ReduceUnder10000(t).ok);
  }

  // ---- The whole sequence.

  lemma SliceJoin(t: seq<nat>, i: nat, m: nat)
    requires i + m <= |t|
    ensures t[..i] + t[i..][..m] == t[..i + m] && t[i..][m..] == t[i + m..]
  {
  }

  lemma ReadsAll(t: seq<nat>, s: Sum, r: Reduced, after: Sum)
    requires Reads(t, s, r, after) && r.rest == []
    ensures |r.dropped| <= |t| && r.dropped == t[|t| - |r.dropped|..]
    ensures ReadAll(s, t[..|t| - |r.dropped|]) == after
  {
  }

  // What an accepted numeral says of its value.
  ghost predicate IsReading(t: seq<nat>, s: Sum, r: Reading) {
    r.Value? ==>
      && |r.dropped| <= |t| && r.dropped == t[|t| - |r.dropped|..]
      && r.value == SumValue(ReadAll(s, t[..|t| - |r.dropped|]))
      && r.value < WORD_LIMIT
      && (r.dropped != [] ==> |r.dropped| >= 2 && 1 <= r.dropped[0] < 10)
  }

  lemma IsReadingAfter(t: seq<nat>, s: Sum, i: nat, r: Reading)
    requires i <= |t| && IsReading(t[i..], ReadAll(s, t[..i]), r)
    ensures IsReading(t, s, r)
  {
    hide Read;
    if r.Value? {
      var m := |t| - i - |r.dropped|;
      SliceJoin(t, i, m);
      ReadAllConcat(s, t[..i], t[i..][..m]);
    }
  }

  lemma {:induction false} InterpretedReading(t: seq<nat>, output: nat, lastBase: nat)
    ensures IsReading(t, Sum(output, 0, 0), InterpretFrom(t, output, lastBase))
    decreases |t|
  {
    hide ReduceUnder10000;
    hide Reads;
    var s, g, r := Sum(output, 0, 0), ReduceUnder10000(t), InterpretFrom(t, output, lastBase);
    if r.Value? {
      var after := Under10000Reading(t, output);
      Under10000Bound(t);
      if g.rest == [] {
        ReadsAll(t, s, g, after);
      } else {
        Under10000Rest(t);
        hide IsReading;
        hide Read;
        ScaledReading(t, output, g, after);
        var i, next := |t| - |g.rest| + 1, Sum(output + g.num * g.rest[0], 0, 0);
        assert g.rest[1..] == t[i..];
        if |g.rest| > 1 {
          InterpretedReading(t[i..], next.total, g.rest[0]);
        } else {
          NothingLeft(next, r.value);
        }
        IsReadingAfter(t, s, i, r);
      }
    }
  }

  lemma NothingLeft(s: Sum, value: nat)
    requires value == SumValue(s) < WORD_LIMIT
    ensures IsReading([], s, Value(value, []))
  {
  }

  lemma ScaledReading(t: seq<nat>, output: nat, g: Reduced, after: Sum)
    requires Reads(t, Sum(output, 0, 0), g, after) && g.rest != [] && g.rest[0] >= 10000
    requires after.total == output && after.group + after.run == g.num
    ensures ReadAll(Sum(output, 0, 0), t[..|t| - |g.rest| + 1]) == Sum(output + g.num * g.rest[0], 0, 0)
  {
    var n := |t| - |g.rest|;
    assert t[..n + 1][..n] == t[..n];
  }

  // A numeral that is accepted has the value it reads as, up to the words that
  // were dropped: everything, or all but a run of two or more digits.
  lemma NormalizedReading(t: seq<nat>)
    requires Normalized(t).Value?
    ensures var r := Normalized(t);
            && |r.dropped| <= |t| && r.dropped == t[|t| - |r.dropped|..]
            && r.value == NumeralValue(t[..|t| - |r.dropped|]) < WORD_LIMIT
            && (r.dropped != [] ==> |r.dropped| >= 2 && 1 <= r.dropped[0] < 10)
  {
    hide Read;
    hide InterpretFrom;
    hide Base10;
    if AllDigits(t) {
      ReadDigits(NOTHING, t);
      assert t[..|t|] == t && t[|t|..] == [];
    } else {
      InterpretedReading(t, 0, WORD_LIMIT - 1);
    }
  }

  lemma {:induction false} ReadingGrows(s: Sum, t: seq<nat>)
    ensures SumValue(s) <= SumValue(ReadAll(s, t))
  {
    if t != [] {
      ReadingGrows(s, t[..|t| - 1]);
      WordGrows(ReadAll(s, t[..|t| - 1]), t[|t| - 1]);
    }
  }

  lemma WordGrows(s: Sum, word: nat)
    ensures SumValue(s) <= SumValue(Read(s, word))
    ensures 1 <= word < 10 ==> SumValue(s) < SumValue(Read(s, word))
  {
    if word >= 10000 {
      assert (s.group + s.run) * word >= s.group + s.run;
    } else if word >= 10 && s.run != 0 {
      assert s.run * word >= s.run;
    }
  }

  // The value is that of the whole numeral exactly when nothing was dropped;
  // otherwise it is too small.
  lemma ExactIffNothingDropped(t: seq<nat>)
    requires Normalized(t).Value?
    ensures Normalized(t).value <= NumeralValue(t)
    ensures Normalized(t).value == NumeralValue(t) <==> Normalized(t).dropped == []
  {
    NormalizedReading(t);
    hide Normalized;
    var r := Normalized(t);
    var kept := t[..|t| - |r.dropped|];
    assert t == kept + r.dropped;
    if r.dropped != [] {
      MoreWordsMore(kept, r.dropped);
    } else {
      assert kept == t;
    }
  }

  // Words that begin with a digit other than zero add to the value.
  lemma MoreWordsMore(t: seq<nat>, more: seq<nat>)
    requires more != [] && 1 <= more[0] < 10
    ensures NumeralValue(t) < NumeralValue(t + more)
  {
    hide Read;
    var s, others := ReadAll(NOTHING, t), more[1..];
    ReadAllConcat(NOTHING, t, more);
    ReadOne(s, more[0]);
    WordGrows(s, more[0]);
    assert [more[0]] + others == more;
    ReadAllConcat(s, [more[0]], others);
    ReadingGrows(Read(s, more[0]), others);
  }

  lemma RunRefused(d: seq<nat>, base: nat)
    requires AllDigits(d) && |d| >= 2 && d[0] != 0 && Base10(d) >= base * 10
    ensures ReduceDigits(d, base) == Reduced(false, [], 0, d)
  {
    assert ZeroCount(d) == 0 && d[0..] == d;
    assert RunLength(d) == |d| && d[..|d|] == d;
  }

  lemma TwoThousandFirst(d: seq<nat>)
    ensures ReduceDigits([2, 1000] + d, 1000) == Reduced(true, d, 2000, [])
  {
    var t := [2, 1000] + d;
    assert ZeroCount(t) == 0 && t[0..] == t && t[2..] == d;
  }

  // Digits that do not fit the place they stand in: after a thousand, 1000 or more.
  // The numeral is accepted without them.
  lemma RunTooLongIsDropped(d: seq<nat>)
    requires AllDigits(d) && |d| >= 2 && d[0] != 0 && Base10(d) >= 1000
    ensures Normalized([2, 1000] + d) == Value(2000, d)
    ensures NumeralValue([2, 1000] + d) == 2000 + Base10(d)
  {
    hide ReduceDigits;
    hide NumeralValue;
    hide Base10;
    var t := [2, 1000] + d;
    TwoThousandFirst(d);
    RunRefused(d, 100);
    DoneStays([], 10);
    assert ReduceUnder10000(t) == Reduced(true, [], 2000, d);
    hide ReduceUnder10000;
    assert t[1] == 1000;
    NumeralOfRun(d);
  }

  lemma NumeralOfRun(d: seq<nat>)
    requires AllDigits(d)
    ensures NumeralValue([2, 1000] + d) == 2000 + Base10(d)
  {
    ReadTwo(NOTHING, 2, 1000);
    ReadAllConcat(NOTHING, [2, 1000], d);
    ReadDigits(Sum(0, 2000, 0), d);
  }
}
