// src/base/util.cc: the procedures over UTF-8 strings, and the two iterators.
module Utf8Strings {
  import opened Options
  import opened Utf8

  // What SplitFirstChar32 makes of the leading byte, as far as its loop.
  method SplitLead(b: bv8) returns (ok: bool, len: nat, min: bv32, max: bv32, result: bv32)
    ensures ok <==> LeadOf(b).Some?
    ensures ok ==> LeadOf(b) == Some(Lead(len, min, max, result))
  {
    ok, len, min, max, result := true, 0, 0, 0xffff_ffff, 0;
    if b < 0x80 {
      len, min, max, result := 1, 0, 0x7f, b as bv32;
      return;
    }
    if IsTrailing(b) {
      return false, len, min, max, result;
    }
    if b & 0xe0 == 0xc0 {
      len, min, max, result := 2, 0x80, 0x7ff, (b & 0x1f) as bv32;
    } else if b & 0xf0 == 0xe0 {
      len, min, max, result := 3, 0x800, 0xffff, (b & 0x0f) as bv32;
    } else if b & 0xf8 == 0xf0 {
      len, min, max, result := 4, 0x1_0000, 0x1f_ffff, (b & 0x07) as bv32;
    } else if b & 0xfc == 0xf8 {
      len, min, max, result := 5, 0x20_0000, 0x3ff_ffff, (b & 0x03) as bv32;
    } else if b & 0xfe == 0xfc {
      len, min, max, result := 6, 0x400_0000, 0x7fff_ffff, (b & 0x01) as bv32;
    } else {
      ok := false;
    }
  }

  lemma OneMoreTail(r: bv32, s: Bytes, i: nat, len: nat)
    requires i < len <= |s|
    ensures Joined(r, s[i..len]) == Joined(Add6(r, s[i]), s[i + 1..len])
  {
    hide Add6;
    assert s[i..len][1..] == s[i + 1..len];
  }

  lemma NoMoreTail(r: bv32, s: Bytes, i: nat)
    requires i <= |s|
    ensures Joined(r, s[i..i]) == r
  {
  }

  // The loop over the trailing bytes.
  method SplitTail(s: Bytes, len: nat, bits: bv32) returns (ok: bool, result: bv32)
    requires 1 <= len <= |s|
    ensures ok <==> Trailing(s, 1, len)
    ensures ok ==> result == Joined(bits, s[1..len])
  {
    hide Joined;
    hide Add6;
    hide IsTrailing;
    result := bits;
    var i := 1;
    while i < len
      invariant 1 <= i <= len && Trailing(s, 1, i)
      invariant Joined(result, s[i..len]) == Joined(bits, s[1..len])
    {
      if !IsTrailing(s[i]) {
        return false, result;
      }
      OneMoreTail(result, s, i, len);
      result := Add6(result, s[i]);
      i := i + 1;
    }
    NoMoreTail(result, s, len);
    ok := true;
  }

  lemma FirstByParts(s: Bytes, len: nat, min: bv32, max: bv32, bits: bv32)
    requires s != [] && LeadOf(s[0]) == Some(Lead(len, min, max, bits)) && len >= 1
    ensures |s| < len || !Trailing(s, 1, len) ==> First(s) == None
    ensures len <= |s| && Trailing(s, 1, len) ==> First(s) == Fitting(min, max, Joined(bits, s[1..len]), len)
  {
    hide LeadOf;
    hide Joined;
    hide Trailing;
    hide Fitting;
  }

  lemma FittingChecked(min: bv32, max: bv32, c: bv32, len: nat)
    ensures Fitting(min, max, c, len).Some? <==> !(c < min || max < c)
    ensures Fitting(min, max, c, len).Some? ==> Fitting(min, max, c, len).value.code == c && Fitting(min, max, c, len).value.len == len
  {
  }

  method SplitFirstChar32(s: Bytes) returns (ok: bool, first: bv32, rest: Bytes)
    ensures ok <==> First(s).Some?
    ensures ok ==> first == First(s).value.code && rest == s[First(s).value.len..]
    ensures !ok ==> first == 0 && rest == []
  {
    hide LeadOf;
    hide Led;
    hide Joined;
    hide Fitting;
    hide IsTrailing;
    ok, first, rest := false, 0, [];
    if s == [] {
      return;
    }
    var len, min, max, bits, result;
    ok, len, min, max, bits := SplitLead(s[0]);
    if !ok {
      return;
    }
    FirstByParts(s, len, min, max, bits);
    hide First;
    if |s| < len {
      ok := false;
      return;
    }
    ok, result := SplitTail(s, len, bits);
    if !ok {
      return;
    }
    FittingChecked(min, max, result, len);
    if result < min || max < result {
      ok := false;
      return;
    }
    first, rest := result, s[len..];
  }

  method SplitLastChar32(s: Bytes) returns (ok: bool, rest: Bytes, last: bv32)
    ensures ok <==> Last(s).Some?
    ensures ok ==> last == Last(s).value.code && rest == s[..|s| - Last(s).value.len]
    ensures !ok ==> rest == []
  {
    hide First;
    hide IsTrailing;
    hide TrailingCount;
    ok, rest, last := false, [], 0;
    if s == [] {
      return;
    }
    var n := 0;
    while n < |s| && IsTrailing(s[|s| - n - 1])
      invariant 0 <= n <= |s| && Trailing(s, |s| - n, |s|)
    {
      n := n + 1;
    }
    if n == |s| {
      AllTrailing(s);
      return;
    }
    TrailingCountOf(s, n);
    var piece := s[|s| - n - 1..];
    var after;
    ok, last, after := SplitFirstChar32(piece);
    if !ok {
      return;
    }
    if after != [] {
      ok := false;
      return;
    }
    rest := s[..|s| - n - 1];
  }

  lemma AllTrailing(s: Bytes)
    requires Trailing(s, 0, |s|)
    ensures TrailingCount(s) == |s|
  {
    hide IsTrailing;
    hide TrailingCount;
  }

  method IsValidUtf8(str: Bytes) returns (valid: bool)
    ensures valid <==> Decode(str).clean
  {
    hide First;
    var s := str;
    while s != []
      invariant Decode(s).clean == Decode(str).clean
      decreases |s|
    {
      var ok, first, rest := SplitFirstChar32(s);
      if !ok {
        return false;
      }
      s := rest;
    }
    valid := true;
  }

  // The code points up to the end or the first error.
  method Utf8ToUtf32(str: Bytes) returns (codes: seq<bv32>)
    ensures codes == Decode(str).codes
  {
    hide First;
    codes := [];
    var s := str;
    var ok, code, rest := SplitFirstChar32(s);
    while ok
      invariant ok <==> First(s).Some?
      invariant ok ==> code == First(s).value.code && rest == s[First(s).value.len..]
      invariant codes + Decode(s).codes == Decode(str).codes
      decreases |s|
    {
      codes := codes + [code];
      s := rest;
      ok, code, rest := SplitFirstChar32(s);
    }
  }

  method CodepointToUtf8Append(c: bv32, output: Bytes) returns (extended: Bytes)
    ensures extended == output + Encode(c)
  {
    hide Encode;
    var buf := new bv8[7];
    var len := CodepointToUtf8(c, buf);
    assert buf[..len] == Encode(c);
    extended := output + buf[..len];
  }

  lemma EncodeAllOneMore(codes: seq<bv32>, i: nat)
    requires i < |codes|
    ensures EncodeAll(codes[i..]) == Encode(codes[i]) + EncodeAll(codes[i + 1..])
  {
    hide Encode;
    assert codes[i..][1..] == codes[i + 1..];
  }

  method Utf32ToUtf8(codes: seq<bv32>) returns (output: Bytes)
    ensures output == EncodeAll(codes)
  {
    hide Encode;
    output := [];
    assert codes[0..] == codes;
    for i := 0 to |codes|
      invariant output + EncodeAll(codes[i..]) == EncodeAll(codes)
    {
      EncodeAllOneMore(codes, i);
      output := CodepointToUtf8Append(codes[i], output);
    }
    assert codes[|codes|..] == [];
  }

  // ---- The iterators. Each gives the code points up to the end or the first error,
  // which look the same to its caller.

  class ConstChar32Iterator {
    var utf8String: Bytes
    var current: bv32
    var done: bool

    // The code points still to come.
    ghost function Codes(): seq<bv32>
      reads this
    {
      if done then [] else [current] + Decode(utf8String).codes
    }

    constructor (s: Bytes)
      ensures Codes() == Decode(s).codes
    {
      utf8String, current, done := s, 0, false;
      new;
      Next();
    }

    method Get() returns (c: bv32)
      requires !done
      ensures c == Codes()[0]
    {
      c := current;
    }

    method Next()
      modifies this
      ensures Codes() == if old(done) then [] else old(Decode(utf8String).codes)
      ensures !old(done) ==> old(Codes()) == [old(current)] + Codes()
    {
      hide First;
      if !done {
        var ok;
        ok, current, utf8String := SplitFirstChar32(utf8String);
        done := !ok;
      }
    }

    method Done() returns (d: bool)
      ensures d <==> Codes() == []
    {
      d := done;
    }
  }

  class ConstChar32ReverseIterator {
    var utf8String: Bytes
    var current: bv32
    var done: bool

    // The code points still to come, the last of the string first.
    ghost function Codes(): seq<bv32>
      reads this
    {
      if done then [] else [current] + DecodeBack(utf8String).codes
    }

    constructor (s: Bytes)
      ensures Codes() == DecodeBack(s).codes
    {
      utf8String, current, done := s, 0, false;
      new;
      Next();
    }

    method Get() returns (c: bv32)
      requires !done
      ensures c == Codes()[0]
    {
      c := current;
    }

    method Next()
      modifies this
      ensures Codes() == if old(done) then [] else old(DecodeBack(utf8String).codes)
      ensures !old(done) ==> old(Codes()) == [old(current)] + Codes()
    {
      hide Last;
      if !done {
        var ok;
        ok, utf8String, current := SplitLastChar32(utf8String);
        done := !ok;
      }
    }

    method Done() returns (d: bool)
      ensures d <==> Codes() == []
    {
      d := done;
    }
  }

  // ---- Together.

  // Decoding and encoding again gives the string back exactly when it is valid and
  // every code point of it survives.
  method DecodeThenEncode(s: Bytes) returns (output: Bytes)
    ensures output == s <==> Decode(s).clean && AllCodable(Decode(s).codes)
  {
    var codes := Utf8ToUtf32(s);
    output := Utf32ToUtf8(codes);
    StringRoundTrip(s);
  }

  method EncodeThenDecode(codes: seq<bv32>) returns (back: seq<bv32>)
    ensures back == codes <==> AllCodable(codes)
    ensures |back| <= |codes|
  {
    var s := Utf32ToUtf8(codes);
    back := Utf8ToUtf32(s);
    EncodedDecodedAll(codes);
  }
}
