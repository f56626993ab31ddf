// src/base/util.cc: UTF-8 in the form of section 2 of RFC 2279, up to six bytes.
module Utf8 {
  import opened Options

  type Bytes = seq<bv8>

  predicate IsTrailing(b: bv8) {
    b & 0xc0 == 0x80
  }

  // ---- Six bits at a time.

  function Tail(x: bv32): bv8 {
    (0x80 + (x & 0x3f)) as bv8
  }

  function Bits(b: bv8): bv32 {
    (b & 0x3f) as bv32
  }

  function Add6(r: bv32, b: bv8): bv32 {
    (r << 6) + Bits(b)
  }

  lemma TailIsTrailing(x: bv32)
    ensures IsTrailing(Tail(x))
  {
  }

  function Drop6(x: bv32): bv32 {
    x >> 6
  }

  lemma TailAdded(x: bv32)
    ensures Add6(Drop6(x), Tail(x)) == x
  {
  }

  lemma AddedTail(r: bv32, b: bv8)
    requires r < 0x400_0000 && IsTrailing(b)
    ensures Drop6(Add6(r, b)) == r && Tail(Add6(r, b)) == b
  {
  }

  // ---- Decoding.

  // What a leading byte says: the length, the code points of that length, and the
  // bits the byte itself gives.
  datatype Lead = Lead(len: nat, min: bv32, max: bv32, bits: bv32)

  function LeadOf(b: bv8): (lead: Option<Lead>)
    ensures lead.Some? ==> 1 <= lead.value.len <= 6 && !IsTrailing(b)
  {
    if b < 0x80 then Some(Lead(1, 0, 0x7f, b as bv32))
    else if IsTrailing(b) then None
    else if b & 0xe0 == 0xc0 then Some(Lead(2, 0x80, 0x7ff, (b & 0x1f) as bv32))
    else if b & 0xf0 == 0xe0 then Some(Lead(3, 0x800, 0xffff, (b & 0x0f) as bv32))
    else if b & 0xf8 == 0xf0 then Some(Lead(4, 0x1_0000, 0x1f_ffff, (b & 0x07) as bv32))
    else if b & 0xfc == 0xf8 then Some(Lead(5, 0x20_0000, 0x3ff_ffff, (b & 0x03) as bv32))
    else if b & 0xfe == 0xfc then Some(Lead(6, 0x400_0000, 0x7fff_ffff, (b & 0x01) as bv32))
    else None
  }

  function Joined(r: bv32, tail: Bytes): bv32
    decreases |tail|
  {
    if tail == [] then r else Joined(Add6(r, tail[0]), tail[1..])
  }

  datatype Char = Char(code: bv32, len: nat)

  predicate Trailing(s: Bytes, from: nat, to: nat)
    requires to <= |s|
  {
    forall k :: from <= k < to ==> IsTrailing(s[k])
  }

  // The character that a leading byte and what follows it make.
  function Led(lead: Lead, s: Bytes): (c: Option<Char>)
    requires 1 <= lead.len
  {
    if |s| < lead.len || !Trailing(s, 1, lead.len) then None
    else Fitting(lead.min, lead.max, Joined(lead.bits, s[1..lead.len]), lead.len)
  }

  // A code point too small for its length is refused.
  function Fitting(min: bv32, max: bv32, code: bv32, len: nat): Option<Char> {
    if code < min || max < code then None else Some(Char(code, len))
  }

  // The character a string begins with.
  function First(s: Bytes): (c: Option<Char>)
    ensures c.Some? ==> 1 <= c.value.len <= |s| && !IsTrailing(s[0]) && Trailing(s, 1, c.value.len)
  {
    if s == [] || LeadOf(s[0]).None? then None else Led(LeadOf(s[0]).value, s)
  }

  // The number of trailing bytes at the end.
  function TrailingCount(s: Bytes): (n: nat)
    ensures n <= |s| && Trailing(s, |s| - n, |s|) && (n < |s| ==> !IsTrailing(s[|s| - n - 1]))
  {
    if s == [] || !IsTrailing(s[|s| - 1]) then 0 else TrailingCount(s[..|s| - 1]) + 1
  }

  // The character a string ends with.
  function Last(s: Bytes): (c: Option<Char>)
    ensures c.Some? ==> 1 <= c.value.len <= |s|
  {
    var n := TrailingCount(s);
    if n == |s| then None
    else
      var c := First(s[|s| - n - 1..]);
      if c.None? || c.value.len != n + 1 then None else c
  }

  datatype Decoded = Decoded(codes: seq<bv32>, clean: bool)

  // The code points read from the front until the end or an error.
  function Decode(s: Bytes): Decoded {
    if s == [] then Decoded([], true)
    else
      var c := First(s);
      if c.None? then Decoded([], false)
      else
        var rest := Decode(s[c.value.len..]);
        Decoded([c.value.code] + rest.codes, rest.clean)
  }

  // The code points read from the back until the beginning or an error.
  function DecodeBack(s: Bytes): Decoded {
    if s == [] then Decoded([], true)
    else
      var c := Last(s);
      if c.None? then Decoded([], false)
      else
        var rest := DecodeBack(s[..|s| - c.value.len]);
        Decoded([c.value.code] + rest.codes, rest.clean)
  }

  function Reversed<T>(s: seq<T>): seq<T> {
    if s == [] then [] else Reversed(s[1..]) + [s[0]]
  }

  // ---- Forward and backward.

  lemma LedOfPrefix(lead: Lead, s: Bytes, t: Bytes)
    requires 1 <= lead.len <= |s|
    ensures Led(lead, s + t) == Led(lead, s)
  {
    hide Joined;
    hide IsTrailing;
    hide Fitting;
    assert (s + t)[1..lead.len] == s[1..lead.len];
    TrailingOfPrefix(s, t, lead.len);
    hide Trailing;
  }

  lemma TrailingOfPrefix(s: Bytes, t: Bytes, n: nat)
    requires n <= |s|
    ensures Trailing(s + t, 1, n) == Trailing(s, 1, n)
  {
    hide IsTrailing;
    assert forall k :: 0 <= k < |s| ==> (s + t)[k] == s[k];
  }

  lemma LedLength(lead: Lead, s: Bytes)
    requires 1 <= lead.len && Led(lead, s).Some?
    ensures Led(lead, s).value.len == lead.len <= |s|
  {
  }

  // A character does not depend on what follows it.
  lemma FirstOfPrefix(s: Bytes, t: Bytes)
    ensures First(s).Some? ==> First(s + t) == First(s)
    ensures First(s + t).Some? && First(s + t).value.len <= |s| ==> First(s) == First(s + t)
  {
    hide LeadOf;
    hide Led;
    if s != [] && LeadOf(s[0]).Some? {
      var lead := LeadOf(s[0]).value;
      if Led(lead, s).Some? {
        LedLength(lead, s);
      }
      if Led(lead, s + t).Some? {
        LedLength(lead, s + t);
      }
      if lead.len <= |s| {
        LedOfPrefix(lead, s, t);
      }
    }
  }

  lemma FirstExact(s: Bytes)
    requires First(s).Some?
    ensures First(s[..First(s).value.len]) == First(s)
  {
    hide First;
    var len := First(s).value.len;
    assert s == s[..len] + s[len..];
    FirstOfPrefix(s[..len], s[len..]);
  }

  // One character alone is the last character.
  lemma OneCharLast(s: Bytes)
    requires First(s).Some? && First(s).value.len == |s|
    ensures Last(s) == First(s)
  {
    hide First;
    hide IsTrailing;
    hide TrailingCount;
    TrailingCountOf(s, |s| - 1);
    assert s[0..] == s;
  }

  // The last character does not depend on what precedes it.
  lemma LastOfSuffix(s: Bytes, t: Bytes)
    requires Last(t).Some?
    ensures Last(s + t) == Last(t)
  {
    hide First;
    hide IsTrailing;
    hide TrailingCount;
    var n := TrailingCount(t);
    TrailingCountOf(s + t, n);
    assert (s + t)[|s + t| - n - 1..] == t[|t| - n - 1..];
  }

  lemma TrailingCountOf(s: Bytes, n: nat)
    requires n < |s| && Trailing(s, |s| - n, |s|) && !IsTrailing(s[|s| - n - 1])
    ensures TrailingCount(s) == n
  {
    hide IsTrailing;
    hide TrailingCount;
  }

  lemma DecodeStep(s: Bytes)
    requires s != []
    ensures First(s).None? ==> Decode(s) == Decoded([], false)
    ensures First(s).Some? ==>
              var rest := Decode(s[First(s).value.len..]);
              Decode(s) == Decoded([First(s).value.code] + rest.codes, rest.clean)
  {
    hide First;
  }

  lemma {:induction false} DecodeConcat(s: Bytes, t: Bytes)
    requires Decode(s).clean
    ensures Decode(s + t) == Decoded(Decode(s).codes + Decode(t).codes, Decode(t).clean)
    decreases |s|
  {
    hide First;
    hide Decode;
    if s == [] {
      NothingDecoded();
      assert s + t == t;
    } else {
      DecodeStep(s);
      DecodeStep(s + t);
      FirstOfPrefix(s, t);
      var rest := s[First(s).value.len..];
      assert (s + t)[First(s).value.len..] == rest + t;
      DecodeConcat(rest, t);
    }
  }

  // A string read to its end from the front has a last character.
  lemma {:induction false} CleanHasLast(s: Bytes)
    requires s != [] && Decode(s).clean
    ensures Last(s).Some?
    ensures var front := s[..|s| - Last(s).value.len];
            Decode(front).clean && Decode(s).codes == Decode(front).codes + [Last(s).value.code]
    decreases |s|
  {
    hide First;
    hide Last;
    hide Decode;
    DecodeStep(s);
    var c := First(s).value;
    var first, rest := s[..c.len], s[c.len..];
    if rest == [] {
      OneCharLast(s);
      NothingDecoded();
      assert s[..0] == [];
    } else {
      CleanHasLast(rest);
      var n := |rest| - Last(rest).value.len;
      assert s == first + rest;
      LastOfSuffix(first, rest);
      OneCharDecoded(s);
      DecodeConcat(first, rest[..n]);
      assert first + rest[..n] == s[..c.len + n];
    }
  }

  lemma OneCharDecoded(s: Bytes)
    requires First(s).Some?
    ensures Decode(s[..First(s).value.len]) == Decoded([First(s).value.code], true)
  {
    FirstExact(s);
    hide First;
    var one := s[..First(s).value.len];
    assert one[|one|..] == [];
  }

  lemma {:induction false} ReversedAppend<T>(s: seq<T>, x: T)
    ensures Reversed(s + [x]) == [x] + Reversed(s)
  {
    if s != [] {
      ReversedAppend(s[1..], x);
      assert (s + [x])[1..] == s[1..] + [x];
    }
  }

  lemma {:induction false} CleanForward(s: Bytes)
    requires Decode(s).clean
    ensures DecodeBack(s) == Decoded(Reversed(Decode(s).codes), true)
    decreases |s|
  {
    hide Decode;
    hide Last;
    if s != [] {
      CleanHasLast(s);
      var front := s[..|s| - Last(s).value.len];
      CleanForward(front);
      ReversedAppend(Decode(front).codes, Last(s).value.code);
    } else {
      assert Decode([]) == Decoded([], true) by {
        NothingDecoded();
      }
    }
  }

  lemma NothingDecoded()
    ensures Decode([]) == Decoded([], true)
  {
  }

  lemma LastIsChar(s: Bytes)
    requires Last(s).Some?
    ensures var last := s[|s| - Last(s).value.len..]; Decode(last) == Decoded([Last(s).value.code], true)
  {
    var last := s[|s| - Last(s).value.len..];
    assert First(last) == Last(s);
    hide First;
    assert last[|last|..] == [];
  }

  lemma {:induction false} CleanBackward(s: Bytes)
    requires DecodeBack(s).clean
    ensures Decode(s).clean
    decreases |s|
  {
    hide Decode;
    hide Last;
    if s != [] {
      var n := |s| - Last(s).value.len;
      CleanBackward(s[..n]);
      LastIsChar(s);
      DecodeConcat(s[..n], s[n..]);
      assert s == s[..n] + s[n..];
    } else {
      NothingDecoded();
    }
  }

  // Reading any bytes forward comes to the end without an error exactly when reading
  // them backward does, and then the two read the same code points in opposite orders.
  lemma ForwardIffBackward(s: Bytes)
    ensures Decode(s).clean <==> DecodeBack(s).clean
    ensures Decode(s).clean ==> DecodeBack(s).codes == Reversed(Decode(s).codes)
  {
    if Decode(s).clean {
      CleanForward(s);
    } else if DecodeBack(s).clean {
      CleanBackward(s);
    }
  }

  // ---- Encoding.

  function Head(len: nat, x: bv32): bv8
    requires 2 <= len <= 6
  {
    match len
    case 2 => (0xc0 + (x & 0x1f)) as bv8
    case 3 => (0xe0 + (x & 0x0f)) as bv8
    case 4 => (0xf0 + (x & 0x07)) as bv8
    case 5 => (0xf8 + (x & 0x03)) as bv8
    case _ => (0xfc + (x & 0x01)) as bv8
  }

  // The code point without its lowest n sixes of bits.
  function Shifted(c: bv32, n: nat): bv32
    requires n <= 5
  {
    match n
    case 0 => c
    case 1 => c >> 6
    case 2 => c >> 12
    case 3 => c >> 18
    case 4 => c >> 24
    case _ => c >> 30
  }

  // The lowest n sixes of bits, highest first.
  function Tails(c: bv32, n: nat): (t: Bytes)
    requires n <= 5
    ensures |t| == n
  {
    seq(n, i requires 0 <= i < n => Tail(Shifted(c, n - 1 - i)))
  }

  // The form of a given length.
  function Form(c: bv32, len: nat): (f: Bytes)
    requires 2 <= len <= 6
    ensures |f| == len
  {
    [Head(len, Shifted(c, len - 1))] + Tails(c, len - 1)
  }

  function LengthOf(c: bv32): (len: nat)
    ensures len <= 6
  {
    if c == 0 then 0
    else if c < 0x80 then 1
    else if c < 0x800 then 2
    else if c < 0x1_0000 then 3
    else if c < 0x20_0000 then 4
    else if c < 0x800_0000 then 5
    else 6
  }

  // The bytes of a code point, none for zero.
  function Encode(c: bv32): (e: Bytes)
    ensures |e| == LengthOf(c)
  {
    var len := LengthOf(c);
    if len == 0 then [] else if len == 1 then [(c & 0xff) as bv8] else Form(c, len)
  }

  // The two forms beyond UCS-4: five bytes.
  method FiveBytes(c: bv32, output: array<bv8>)
    requires output.Length >= 7
    modifies output
    ensures output[5] == 0 && forall k :: 0 <= k < 5 ==> output[k] == Form(c, 5)[k]
    ensures forall k :: 5 < k < output.Length ==> output[k] == old(output[k])
  {
    assert Shifted(c, 0) == c;
    hide Tail;
    hide Head;
    hide Shifted;
    output[0] := Head(5, Shifted(c, 4));
    output[1] := Tail(Shifted(c, 3));
    output[2] := Tail(Shifted(c, 2));
    output[3] := Tail(Shifted(c, 1));
    output[4] := Tail(c);
    output[5] := 0;
    assert output[0] == Form(c, 5)[0] && output[1] == Form(c, 5)[1] && output[2] == Form(c, 5)[2];
    assert output[3] == Form(c, 5)[3] && output[4] == Form(c, 5)[4];
  }

  // Six bytes.
  method SixBytes(c: bv32, output: array<bv8>)
    requires output.Length >= 7
    modifies output
    ensures output[6] == 0 && forall k :: 0 <= k < 6 ==> output[k] == Form(c, 6)[k]
    ensures forall k :: 6 < k < output.Length ==> output[k] == old(output[k])
  {
    assert Shifted(c, 0) == c;
    hide Tail;
    hide Head;
    hide Shifted;
    output[0] := Head(6, Shifted(c, 5));
    output[1] := Tail(Shifted(c, 4));
    output[2] := Tail(Shifted(c, 3));
    output[3] := Tail(Shifted(c, 2));
    output[4] := Tail(Shifted(c, 1));
    output[5] := Tail(c);
    output[6] := 0;
    assert output[0] == Form(c, 6)[0] && output[1] == Form(c, 6)[1] && output[2] == Form(c, 6)[2];
    assert output[3] == Form(c, 6)[3] && output[4] == Form(c, 6)[4] && output[5] == Form(c, 6)[5];
  }

  method CodepointToUtf8(c: bv32, output: array<bv8>) returns (len: nat)
    requires output.Length >= 7
    modifies output
    ensures len == |Encode(c)| <= 6
    ensures output[len] == 0 && forall k :: 0 <= k < len ==> output[k] == Encode(c)[k]
    ensures forall k :: len < k < output.Length ==> output[k] == old(output[k])
  {
    assert Shifted(c, 0) == c;
    hide Tail;
    hide Head;
    hide Shifted;
    if c == 0 {
      output[0] := 0;
      len := 0;
    } else if c < 0x80 {
      output[0] := (c & 0xff) as bv8;
      output[1] := 0;
      len := 1;
    } else if c < 0x800 {
      output[0] := Head(2, Shifted(c, 1));
      output[1] := Tail(c);
      output[2] := 0;
      assert output[0] == Form(c, 2)[0] && output[1] == Form(c, 2)[1];
      len := 2;
    } else if c < 0x1_0000 {
      output[0] := Head(3, Shifted(c, 2));
      output[1] := Tail(Shifted(c, 1));
      output[2] := Tail(c);
      output[3] := 0;
      assert output[0] == Form(c, 3)[0] && output[1] == Form(c, 3)[1] && output[2] == Form(c, 3)[2];
      len := 3;
    } else if c < 0x20_0000 {
      output[0] := Head(4, Shifted(c, 3));
      output[1] := Tail(Shifted(c, 2));
      output[2] := Tail(Shifted(c, 1));
      output[3] := Tail(c);
      output[4] := 0;
      assert output[0] == Form(c, 4)[0] && output[1] == Form(c, 4)[1] && output[2] == Form(c, 4)[2];
      assert output[3] == Form(c, 4)[3];
      len := 4;
    } else if c < 0x800_0000 {
      FiveBytes(c, output);
      len := 5;
    } else {
      SixBytes(c, output);
      len := 6;
    }
  }

  // ---- Decoding what was encoded.

  // The code points that survive: not zero, and neither those that the encoder gives
  // five bytes though five cannot hold them, nor those past thirty-one bits.
  predicate Codable(c: bv32) {
    1 <= c < 0x400_0000 || 0x800_0000 <= c < 0x8000_0000
  }

  lemma ShiftedOnce(c: bv32, n: nat)
    requires n < 5
    ensures Shifted(c, n + 1) == Drop6(Shifted(c, n))
  {
    SixAtATime(c);
    hide Drop6;
    match n {
      case 0 =>
      case 1 =>
      case 2 =>
      case 3 =>
      case 4 =>
    }
  }

  lemma SixAtATime(c: bv32)
    ensures Drop6(c) == c >> 6 && Drop6(c >> 6) == c >> 12 && Drop6(c >> 12) == c >> 18
    ensures Drop6(c >> 18) == c >> 24 && Drop6(c >> 24) == c >> 30
  {
  }

  lemma ShiftedAdded(c: bv32, n: nat)
    requires n < 5
    ensures Add6(Shifted(c, n + 1), Tail(Shifted(c, n))) == Shifted(c, n)
  {
    ShiftedOnce(c, n);
    TailAdded(Shifted(c, n));
    hide Drop6;
    hide Shifted;
    hide Add6;
    hide Tail;
  }

  // The code points that need a form, and those that fit it.
  function MinCode(len: nat): bv32
    requires 2 <= len <= 6
  {
    match len
    case 2 => 0x80
    case 3 => 0x800
    case 4 => 0x1_0000
    case 5 => 0x20_0000
    case _ => 0x400_0000
  }

  function MaxCode(len: nat): bv32
    requires 2 <= len <= 6
  {
    match len
    case 2 => 0x7ff
    case 3 => 0xffff
    case 4 => 0x1f_ffff
    case 5 => 0x3ff_ffff
    case _ => 0x7fff_ffff
  }

  lemma HeadLeads2(x: bv32)
    requires x < 0x20
    ensures LeadOf(Head(2, x)) == Some(Lead(2, 0x80, 0x7ff, x))
  {
  }

  lemma HeadLeads3(x: bv32)
    requires x < 0x10
    ensures LeadOf(Head(3, x)) == Some(Lead(3, 0x800, 0xffff, x))
  {
  }

  lemma HeadLeads4(x: bv32)
    requires x < 0x08
    ensures LeadOf(Head(4, x)) == Some(Lead(4, 0x1_0000, 0x1f_ffff, x))
  {
  }

  lemma HeadLeads5(x: bv32)
    requires x < 0x04
    ensures LeadOf(Head(5, x)) == Some(Lead(5, 0x20_0000, 0x3ff_ffff, x))
  {
  }

  lemma HeadLeads6(x: bv32)
    requires x < 0x02
    ensures LeadOf(Head(6, x)) == Some(Lead(6, 0x400_0000, 0x7fff_ffff, x))
  {
  }

  predicate FitsForm(c: bv32, len: nat)
    requires 2 <= len <= 6
  {
    !(MaxCode(len) < c)
  }

  predicate NeedsForm(c: bv32, len: nat)
    requires 2 <= len <= 6
  {
    !(c < MinCode(len))
  }

  // The lead that the head of each length stands for, when the bits fit.
  lemma HeadLeads(len: nat, c: bv32)
    requires 2 <= len <= 6 && FitsForm(c, len)
    ensures var x := Shifted(c, len - 1); LeadOf(Head(len, x)) == Some(Lead(len, MinCode(len), MaxCode(len), x))
  {
    hide LeadOf;
    hide Head;
    match len {
      case 2 => HeadLeads2(c >> 6);
      case 3 => HeadLeads3(c >> 12);
      case 4 => HeadLeads4(c >> 18);
      case 5 => HeadLeads5(c >> 24);
      case 6 => HeadLeads6(c >> 30);
    }
  }

  lemma {:induction false} TailsJoined(c: bv32, n: nat)
    requires n <= 5
    ensures Joined(Shifted(c, n), Tails(c, n)) == c && Trailing(Tails(c, n), 0, n)
  {
    hide Add6;
    hide Tail;
    hide IsTrailing;
    assert Shifted(c, 0) == c;
    hide Shifted;
    if n > 0 {
      TailsJoined(c, n - 1);
      ShiftedAdded(c, n - 1);
      TailIsTrailing(Shifted(c, n - 1));
      assert Tails(c, n) == [Tail(Shifted(c, n - 1))] + Tails(c, n - 1);
      assert Tails(c, n)[1..] == Tails(c, n - 1);
    }
  }

  lemma LedTails(lead: Lead, c: bv32, head: bv8, n: nat, suffix: Bytes)
    requires n <= 5 && lead.len == n + 1 && lead.bits == Shifted(c, n)
    ensures Led(lead, [head] + Tails(c, n) + suffix) == Fitting(lead.min, lead.max, c, lead.len)
  {
    hide Tails;
    hide Joined;
    hide Fitting;
    hide IsTrailing;
    hide Shifted;
    TailsJoined(c, n);
    var s := [head] + Tails(c, n);
    assert s[1..n + 1] == Tails(c, n);
    LedOfPrefix(lead, s, suffix);
  }

  lemma LedFirst(head: bv8, rest: Bytes, lead: Lead)
    requires LeadOf(head) == Some(lead)
    ensures First([head] + rest) == Led(lead, [head] + rest)
  {
    hide LeadOf;
    hide Led;
  }

  lemma FormLed(c: bv32, len: nat, suffix: Bytes)
    requires 2 <= len <= 6 && FitsForm(c, len)
    ensures First(Form(c, len) + suffix) == Fitting(MinCode(len), MaxCode(len), c, len)
  {
    hide *;
    var x := Shifted(c, len - 1);
    var head, lead := Head(len, x), Lead(len, MinCode(len), MaxCode(len), x);
    HeadLeads(len, c);
    LedTails(lead, c, head, len - 1, suffix);
    LedFirst(head, Tails(c, len - 1) + suffix, lead);
    FormListed(c, len, suffix);
  }

  lemma FormListed(c: bv32, len: nat, suffix: Bytes)
    requires 2 <= len <= 6
    ensures var x := Shifted(c, len - 1);
            Form(c, len) + suffix == [Head(len, x)] + (Tails(c, len - 1) + suffix) == [Head(len, x)] + Tails(c, len - 1) + suffix
  {
    hide Head;
    hide Tails;
    hide Shifted;
  }

  // A code point whose bits fit the form comes back, if it needs the form.
  lemma FormDecoded(c: bv32, len: nat, suffix: Bytes)
    requires 2 <= len <= 6 && FitsForm(c, len)
    ensures NeedsForm(c, len) ==> First(Form(c, len) + suffix) == Some(Char(c, len))
    ensures !NeedsForm(c, len) ==> First(Form(c, len) + suffix) == None
  {
    FormLed(c, len, suffix);
    hide First;
    hide Form;
    hide MinCode;
    hide MaxCode;
  }

  // The bits that five and six bytes have no room for.
  lemma LowBitsOfFive(c: bv32, d: bv32)
    requires d == c & 0x3ff_ffff
    ensures Tail(c) == Tail(d) && Tail(c >> 6) == Tail(d >> 6)
    ensures Tail(c >> 12) == Tail(d >> 12) && Tail(c >> 18) == Tail(d >> 18)
    ensures Head(5, c >> 24) == Head(5, d >> 24)
  {
  }

  lemma LowBitsOfSix(c: bv32, d: bv32)
    requires d == c & 0x7fff_ffff
    ensures Tail(c) == Tail(d) && Tail(c >> 6) == Tail(d >> 6) && Tail(c >> 12) == Tail(d >> 12)
    ensures Tail(c >> 18) == Tail(d >> 18) && Tail(c >> 24) == Tail(d >> 24)
    ensures Head(6, c >> 30) == Head(6, d >> 30)
  {
  }

  lemma SameForm(c: bv32, d: bv32, len: nat)
    requires 2 <= len <= 6
    requires Head(len, Shifted(c, len - 1)) == Head(len, Shifted(d, len - 1))
    requires forall n: nat :: n < len - 1 ==> Tail(Shifted(c, n)) == Tail(Shifted(d, n))
    ensures Form(c, len) == Form(d, len)
  {
    hide Tail;
    hide Head;
    hide Shifted;
  }

  lemma TailOfFive(c: bv32, d: bv32, n: nat)
    requires d == c & 0x3ff_ffff && n < 4
    ensures Tail(Shifted(c, n)) == Tail(Shifted(d, n))
  {
    match n {
      case 0 =>
      case 1 =>
      case 2 =>
      case 3 =>
    }
  }

  lemma TailOfSix(c: bv32, d: bv32, n: nat)
    requires d == c & 0x7fff_ffff && n < 5
    ensures Tail(Shifted(c, n)) == Tail(Shifted(d, n))
  {
    match n {
      case 0 =>
      case 1 =>
      case 2 =>
      case 3 =>
      case 4 =>
    }
  }

  lemma FiveLosesABit(c: bv32)
    requires 0x400_0000 <= c < 0x800_0000
    ensures Form(c, 5) == Form(c - 0x400_0000, 5)
  {
    var d := c - 0x400_0000;
    assert d == c & 0x3ff_ffff;
    LowBitsOfFive(c, d);
    assert Shifted(c, 4) == c >> 24 && Shifted(d, 4) == d >> 24;
    hide *;
    forall n: nat | n < 4 ensures Tail(Shifted(c, n)) == Tail(Shifted(d, n)) {
      TailOfFive(c, d, n);
    }
    SameForm(c, d, 5);
  }

  lemma SixLosesABit(c: bv32)
    requires 0x8000_0000 <= c
    ensures Form(c, 6) == Form(c - 0x8000_0000, 6)
  {
    var d := c - 0x8000_0000;
    assert d == c & 0x7fff_ffff;
    LowBitsOfSix(c, d);
    assert Shifted(c, 5) == c >> 30 && Shifted(d, 5) == d >> 30;
    hide *;
    forall n: nat | n < 5 ensures Tail(Shifted(c, n)) == Tail(Shifted(d, n)) {
      TailOfSix(c, d, n);
    }
    SameForm(c, d, 6);
  }

  lemma AsciiDecoded(c: bv32, suffix: Bytes)
    requires 0 < c < 0x80
    ensures First([(c & 0xff) as bv8] + suffix) == Some(Char(c, 1))
  {
    var b := (c & 0xff) as bv8;
    assert b < 0x80 && b as bv32 == c;
    var s := [b] + suffix;
    assert s[1..1] == [];
  }

  lemma FormFits(c: bv32)
    ensures LengthOf(c) >= 2 ==> (Codable(c) <==> FitsForm(c, LengthOf(c)) && NeedsForm(c, LengthOf(c)))
    ensures Codable(c) ==> LengthOf(c) >= 1
    ensures LengthOf(c) == 1 <==> 0 < c < 0x80
    ensures LengthOf(c) == 1 ==> Codable(c)
    ensures LengthOf(c) == 0 <==> c == 0
  {
  }

  lemma CodableDecoded(c: bv32, suffix: Bytes)
    requires Codable(c)
    ensures First(Encode(c) + suffix) == Some(Char(c, LengthOf(c)))
  {
    hide First;
    hide Form;
    hide FitsForm;
    hide NeedsForm;
    hide Codable;
    hide LengthOf;
    FormFits(c);
    if LengthOf(c) == 1 {
      AsciiDecoded(c, suffix);
    } else {
      FormDecoded(c, LengthOf(c), suffix);
    }
  }

  // What the others are decoded as, when they are not refused.
  function Narrowed(c: bv32): bv32
    requires !Codable(c) && c != 0
  {
    if c < 0x800_0000 then c - 0x400_0000 else c - 0x8000_0000
  }

  lemma NarrowedFits(c: bv32)
    requires !Codable(c) && c != 0
    ensures LengthOf(c) in {5, 6} && Form(c, LengthOf(c)) == Form(Narrowed(c), LengthOf(c))
    ensures FitsForm(Narrowed(c), LengthOf(c)) && Narrowed(c) != c
  {
    hide Form;
    if c < 0x800_0000 {
      FiveLosesABit(c);
    } else {
      SixLosesABit(c);
    }
  }

  // They are decoded exactly when that is long enough for the form that is used.
  lemma UncodableDecoded(c: bv32, suffix: Bytes)
    requires !Codable(c) && c != 0
    ensures First(Encode(c) + suffix) == if NeedsForm(Narrowed(c), LengthOf(c)) then Some(Char(Narrowed(c), LengthOf(c))) else None
    ensures Narrowed(c) != c
  {
    NarrowedFits(c);
    hide First;
    hide Form;
    hide Codable;
    hide Narrowed;
    hide LengthOf;
    hide FitsForm;
    hide NeedsForm;
    FormDecoded(Narrowed(c), LengthOf(c), suffix);
  }

  // Exactly the code points that survive do so, whatever follows.
  lemma RoundTripIffCodable(c: bv32, suffix: Bytes)
    ensures First(Encode(c) + suffix) == Some(Char(c, |Encode(c)|)) <==> Codable(c)
  {
    FormFits(c);
    hide First;
    hide Encode;
    hide Codable;
    hide LengthOf;
    if Codable(c) {
      CodableDecoded(c, suffix);
    } else if c != 0 {
      UncodableDecoded(c, suffix);
    }
  }

  // ---- Encoding what was decoded.

  // Room for n more sixes of bits.
  predicate Room(r: bv32, n: nat) {
    match n
    case 0 => true
    case 1 => r < 0x400_0000
    case 2 => r < 0x10_0000
    case 3 => r < 0x4000
    case 4 => r < 0x100
    case _ => r < 0x4
  }

  lemma RoomLeft(r: bv32, b: bv8, n: nat)
    requires 1 <= n <= 5 && Room(r, n)
    ensures Room(r, 1) && Room(Add6(r, b), n - 1)
  {
    match n {
      case 1 =>
      case 2 =>
      case 3 =>
      case 4 =>
      case 5 =>
    }
  }

  lemma AddedTailIn(r: bv32, b: bv8)
    requires Room(r, 1) && IsTrailing(b)
    ensures Drop6(Add6(r, b)) == r && Tail(Add6(r, b)) == b
  {
    AddedTail(r, b);
  }

  lemma TailsOneMore(c: bv32, n: nat)
    requires 1 <= n <= 5
    ensures Tails(c, n) == [Tail(Shifted(c, n - 1))] + Tails(c, n - 1)
  {
    hide Tail;
    hide Shifted;
  }

  lemma {:induction false} JoinedSplit(r: bv32, tail: Bytes, n: nat)
    requires |tail| == n <= 5 && Room(r, n) && Trailing(tail, 0, n)
    ensures Shifted(Joined(r, tail), n) == r && Tails(Joined(r, tail), n) == tail
    decreases n
  {
    hide Add6;
    hide Tail;
    hide Room;
    hide IsTrailing;
    hide Drop6;
    hide Tails;
    var c := Joined(r, tail);
    if n == 0 {
      assert Shifted(c, 0) == c;
    } else {
      hide Shifted;
      var r1 := Add6(r, tail[0]);
      RoomLeft(r, tail[0], n);
      AddedTailIn(r, tail[0]);
      JoinedSplit(r1, tail[1..], n - 1);
      ShiftedOnce(c, n - 1);
      TailsOneMore(c, n);
      assert tail == [tail[0]] + tail[1..];
    }
  }

  lemma LeadHead(b: bv8)
    requires LeadOf(b).Some? && LeadOf(b).value.len >= 2
    ensures var lead := LeadOf(b).value;
            && Head(lead.len, lead.bits) == b && Room(lead.bits, lead.len - 1)
            && lead.min == MinCode(lead.len) && lead.max == MaxCode(lead.len)
  {
  }

  lemma FittingMeans(c: bv32, len: nat)
    requires 2 <= len <= 6 && Fitting(MinCode(len), MaxCode(len), c, len).Some?
    ensures FitsForm(c, len) && NeedsForm(c, len)
  {
    hide MinCode;
    hide MaxCode;
  }

  lemma LengthOfForm(c: bv32, len: nat)
    requires 2 <= len <= 6 && FitsForm(c, len) && NeedsForm(c, len)
    ensures if Codable(c) then LengthOf(c) == len else LengthOf(c) < len
  {
  }

  lemma TrailingTail(s: Bytes, len: nat)
    requires 1 <= len <= |s| && Trailing(s, 1, len)
    ensures Trailing(s[1..len], 0, len - 1)
  {
    hide IsTrailing;
  }

  lemma LedParts(lead: Lead, s: Bytes)
    requires 1 <= lead.len && Led(lead, s).Some?
    ensures lead.len <= |s| && Trailing(s, 1, lead.len)
    ensures Led(lead, s) == Fitting(lead.min, lead.max, Joined(lead.bits, s[1..lead.len]), lead.len)
    ensures Led(lead, s).value == Char(Joined(lead.bits, s[1..lead.len]), lead.len)
  {
    hide Joined;
    hide IsTrailing;
  }

  // A character of two bytes or more is the form of its code point.
  lemma LongCharForm(s: Bytes)
    requires First(s).Some? && First(s).value.len >= 2
    ensures var c := First(s).value;
            c.len <= 6 && Form(c.code, c.len) == s[..c.len] && FitsForm(c.code, c.len) && NeedsForm(c.code, c.len)
  {
    hide LeadOf;
    hide Led;
    hide Head;
    hide Joined;
    hide Shifted;
    hide Tails;
    hide Fitting;
    hide FitsForm;
    hide NeedsForm;
    hide IsTrailing;
    hide Room;
    hide MinCode;
    hide MaxCode;
    var lead := LeadOf(s[0]).value;
    LedParts(lead, s);
    LeadHead(s[0]);
    TrailingTail(s, lead.len);
    hide Trailing;
    var tail := s[1..lead.len];
    JoinedSplit(lead.bits, tail, lead.len - 1);
    FittingMeans(Joined(lead.bits, tail), lead.len);
    assert s[..lead.len] == [s[0]] + tail;
  }

  lemma ShortChar(s: Bytes)
    requires First(s).Some? && First(s).value.len == 1
    ensures First(s).value.code < 0x80 && (First(s).value.code != 0 ==> Encode(First(s).value.code) == s[..1])
  {
    var b := s[0];
    assert LeadOf(b).value.len == 1;
    assert b < 0x80;
    assert s[1..1] == [];
    assert First(s).value.code == b as bv32;
    assert ((b as bv32) & 0xff) as bv8 == b;
    assert s[..1] == [b];
  }

  // A character is the encoding of its code point, or longer than that.
  lemma CharEncoded(s: Bytes)
    requires First(s).Some?
    ensures var c := First(s).value; if Codable(c.code) then Encode(c.code) == s[..c.len] else |Encode(c.code)| < c.len
  {
    var c := First(s).value;
    FormFits(c.code);
    if c.len == 1 {
      ShortChar(s);
      hide First;
      hide Codable;
    } else {
      hide First;
      hide Codable;
      LongCharForm(s);
      LengthOfForm(c.code, c.len);
      hide FitsForm;
      hide NeedsForm;
      hide LengthOf;
    }
  }

  // ---- Whole strings.

  // The encodings of code points, one after the other.
  function EncodeAll(codes: seq<bv32>): Bytes {
    if codes == [] then [] else Encode(codes[0]) + EncodeAll(codes[1..])
  }

  predicate AllCodable(codes: seq<bv32>) {
    forall k :: 0 <= k < |codes| ==> Codable(codes[k])
  }

  lemma {:induction false} DecodedEncoded(s: Bytes)
    ensures var d := Decode(s);
            if d.clean && AllCodable(d.codes) then EncodeAll(d.codes) == s else |EncodeAll(d.codes)| < |s|
    decreases |s|
  {
    hide First;
    hide Codable;
    hide Encode;
    hide LengthOf;
    if s != [] {
      DecodeStep(s);
      hide Decode;
      if First(s).Some? {
        var c, rest := First(s).value, s[First(s).value.len..];
        CharEncoded(s);
        DecodedEncoded(rest);
        var d := Decode(s);
        assert d.codes[1..] == Decode(rest).codes && d.codes[0] == c.code;
        assert s == s[..c.len] + rest;
        AllCodableSplit(d.codes);
      }
    }
  }

  lemma AllCodableSplit(codes: seq<bv32>)
    requires codes != []
    ensures AllCodable(codes) <==> Codable(codes[0]) && AllCodable(codes[1..])
  {
    hide Codable;
    forall k | 1 <= k < |codes| ensures codes[k] == codes[1..][k - 1] {
    }
  }

  // A string comes back from its code points exactly when it is valid and every
  // one of them survives encoding.
  lemma StringRoundTrip(s: Bytes)
    ensures EncodeAll(Decode(s).codes) == s <==> Decode(s).clean && AllCodable(Decode(s).codes)
  {
    DecodedEncoded(s);
  }

  lemma FirstOfEncoded(codes: seq<bv32>)
    requires codes != [] && codes[0] != 0
    ensures var c := First(EncodeAll(codes)); c.Some? ==> c.value.len == |Encode(codes[0])|
    ensures Codable(codes[0]) ==> First(EncodeAll(codes)) == Some(Char(codes[0], |Encode(codes[0])|))
    ensures !Codable(codes[0]) && First(EncodeAll(codes)).Some? ==> First(EncodeAll(codes)).value.code != codes[0]
  {
    hide First;
    hide Codable;
    hide Encode;
    hide LengthOf;
    if Codable(codes[0]) {
      CodableDecoded(codes[0], EncodeAll(codes[1..]));
    } else {
      UncodableDecoded(codes[0], EncodeAll(codes[1..]));
    }
  }

  lemma {:induction false} EncodedDecodedAll(codes: seq<bv32>)
    ensures |Decode(EncodeAll(codes)).codes| <= |codes|
    ensures AllCodable(codes) ==> Decode(EncodeAll(codes)) == Decoded(codes, true)
    ensures Decode(EncodeAll(codes)).codes == codes ==> AllCodable(codes)
    decreases |codes|
  {
    hide First;
    hide Encode;
    hide LengthOf;
    if codes == [] {
      NothingDecoded();
    } else {
      var s, rest := EncodeAll(codes), EncodeAll(codes[1..]);
      FormFits(codes[0]);
      hide Codable;
      EncodedDecodedAll(codes[1..]);
      AllCodableSplit(codes);
      hide AllCodable;
      if codes[0] == 0 {
        assert s == rest by {
          NoBytesForZero();
        }
      } else {
        hide Decode;
        FirstOfEncoded(codes);
        NotEmpty(codes[0]);
        DecodeStep(s);
        assert s[|Encode(codes[0])|..] == rest;
      }
    }
  }

  lemma NoBytesForZero()
    ensures Encode(0) == [] && !Codable(0)
  {
  }

  lemma NotEmpty(c: bv32)
    requires c != 0
    ensures Encode(c) != []
  {
  }

  // ---- The table of RFC 2279, and examples.

  // A leading byte with its mark above the bits, and a trailing byte.
  function Marked(mark: bv8, x: bv32): bv8 {
    mark | (x & 0xff) as bv8
  }

  function Trail(x: bv32): bv8 {
    Marked(0x80, x & 0x3f)
  }

  lemma TailMarked(x: bv32)
    ensures Tail(x) == Trail(x)
  {
  }

  lemma HeadMarked(c: bv32)
    ensures c < 0x800 ==> Head(2, c >> 6) == Marked(0xc0, c >> 6)
    ensures c < 0x1_0000 ==> Head(3, c >> 12) == Marked(0xe0, c >> 12)
    ensures c < 0x20_0000 ==> Head(4, c >> 18) == Marked(0xf0, c >> 18)
    ensures c < 0x400_0000 ==> Head(5, c >> 24) == Marked(0xf8, c >> 24)
    ensures c < 0x8000_0000 ==> Head(6, c >> 30) == Marked(0xfc, c >> 30)
  {
  }

  lemma ShiftedBy(c: bv32)
    ensures Shifted(c, 0) == c && Shifted(c, 1) == c >> 6 && Shifted(c, 2) == c >> 12
    ensures Shifted(c, 3) == c >> 18 && Shifted(c, 4) == c >> 24 && Shifted(c, 5) == c >> 30
  {
  }

  // The parts of a form, by their distance from its end.
  lemma FormParts(c: bv32, len: nat, i: nat)
    requires 2 <= len <= 6 && i < len
    ensures Form(c, len)[i] == if i == 0 then Head(len, Shifted(c, len - 1)) else Tail(Shifted(c, len - 1 - i))
  {
    hide Head;
    hide Tail;
    hide Shifted;
  }

  lemma FormBytes(c: bv32, len: nat)
    requires 2 <= len <= 6
    ensures len == 2 ==> Form(c, len) == [Head(2, c >> 6), Tail(c)]
    ensures len == 3 ==> Form(c, len) == [Head(3, c >> 12), Tail(c >> 6), Tail(c)]
    ensures len == 4 ==> Form(c, len) == [Head(4, c >> 18), Tail(c >> 12), Tail(c >> 6), Tail(c)]
    ensures len == 5 ==> Form(c, len) == [Head(5, c >> 24), Tail(c >> 18), Tail(c >> 12), Tail(c >> 6), Tail(c)]
    ensures len == 6 ==>
              Form(c, len) == [Head(6, c >> 30), Tail(c >> 24), Tail(c >> 18), Tail(c >> 12), Tail(c >> 6), Tail(c)]
  {
    ShiftedBy(c);
    hide Head;
    hide Tail;
    hide Shifted;
    hide Form;
    forall i | 0 <= i < len
      ensures Form(c, len)[i] == if i == 0 then Head(len, Shifted(c, len - 1)) else Tail(Shifted(c, len - 1 - i))
    {
      FormParts(c, len, i);
    }
  }

  predicate In(c: bv32, low: bv32, high: bv32) {
    low <= c < high
  }

  // The bits of a code point fill the marked bytes from the last one up.
  lemma StandardBytes(c: bv32)
    ensures In(c, 1, 0x80) ==> Encode(c) == [Marked(0, c)]
    ensures In(c, 0x80, 0x800) ==> Encode(c) == [Marked(0xc0, c >> 6), Trail(c)]
    ensures In(c, 0x800, 0x1_0000) ==> Encode(c) == [Marked(0xe0, c >> 12), Trail(c >> 6), Trail(c)]
    ensures In(c, 0x1_0000, 0x20_0000) ==> Encode(c) == [Marked(0xf0, c >> 18), Trail(c >> 12), Trail(c >> 6), Trail(c)]
    ensures In(c, 0x20_0000, 0x400_0000) ==>
              Encode(c) == [Marked(0xf8, c >> 24), Trail(c >> 18), Trail(c >> 12), Trail(c >> 6), Trail(c)]
    ensures In(c, 0x800_0000, 0x8000_0000) ==>
              Encode(c) == [Marked(0xfc, c >> 30), Trail(c >> 24), Trail(c >> 18), Trail(c >> 12), Trail(c >> 6), Trail(c)]
  {
    HeadMarked(c);
    TailMarked(c);
    TailMarked(c >> 6);
    TailMarked(c >> 12);
    TailMarked(c >> 18);
    TailMarked(c >> 24);
    if LengthOf(c) >= 2 {
      FormBytes(c, LengthOf(c));
    }
    hide Head;
    hide Tail;
    hide Form;
    hide Trail;
  }

  // The letter e with an acute accent, the Hiragana a, and a Kanji of four bytes.
  lemma Examples()
    ensures Encode(0xe9) == [0xc3, 0xa9]
    ensures Encode(0x3042) == [0xe3, 0x81, 0x82]
    ensures Encode(0x2_0bb7) == [0xf0, 0xa0, 0xae, 0xb7]
  {
    StandardBytes(0xe9);
    StandardBytes(0x3042);
    StandardBytes(0x2_0bb7);
    hide Encode;
  }
}
