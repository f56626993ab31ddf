// The methods of unverified_aes256.cc. A block is 16 bytes of a larger buffer,
// given as the buffer and the offset where it starts; every method overwrites it
// in place and leaves the rest of the buffer alone.
module AesInPlace {
  import opened Gf256
  import opened SBoxTables
  import opened Columns
  import opened Aes256

  // s with the bytes from `at` on replaced by `piece`.
  function Spliced(s: seq<bv8>, at: nat, piece: seq<bv8>): seq<bv8>
    requires at + |piece| <= |s|
  {
    s[..at] + piece + s[at + |piece|..]
  }

  lemma SplicedTwice(s: seq<bv8>, at: nat, p: seq<bv8>, q: seq<bv8>)
    requires |p| == |q| && at + |p| <= |s|
    ensures Spliced(s, at, p)[at..at + |p|] == p
    ensures Spliced(Spliced(s, at, p), at, q) == Spliced(s, at, q)
  {
  }

  lemma BytewiseSpliced(before: seq<bv8>, after: seq<bv8>, at: nat, piece: seq<bv8>)
    requires |before| == |after| && at + |piece| <= |before|
    requires forall k :: 0 <= k < |before| && !(at <= k < at + |piece|) ==> after[k] == before[k]
    requires forall k :: at <= k < at + |piece| ==> after[k] == piece[k - at]
    ensures after == Spliced(before, at, piece)
  {
  }

  method AddRoundKey(block: array<bv8>, at: nat, w: array<bv8>, from: nat)
    requires at + 16 <= block.Length && from + 16 <= w.Length && block != w
    modifies block
    ensures block[..] == Spliced(old(block[..]), at, XorBlock(old(block[at..at + 16]), w[from..from + 16]))
  {
    hide Xor;
    for i := 0 to 16
      invariant forall k :: at <= k < at + i ==> block[k] == Xor(old(block[k]), w[from + k - at])
      invariant forall k :: 0 <= k < block.Length && !(at <= k < at + i) ==> block[k] == old(block[k])
    {
      block[at + i] := Xor(block[at + i], w[from + i]);
    }
    BytewiseSpliced(old(block[..]), block[..], at, XorBlock(old(block[at..at + 16]), w[from..from + 16]));
  }

  method SubBytesInPlace(block: array<bv8>, at: nat)
    requires at + 16 <= block.Length
    modifies block
    ensures block[..] == Spliced(old(block[..]), at, SubBytes(old(block[at..at + 16])))
  {
    hide SBox;
    for i := 0 to 16
      invariant forall k :: at <= k < at + i ==> block[k] == SBox(old(block[k]))
      invariant forall k :: 0 <= k < block.Length && !(at <= k < at + i) ==> block[k] == old(block[k])
    {
      block[at + i] := SBox(block[at + i]);
    }
    BytewiseSpliced(old(block[..]), block[..], at, SubBytes(old(block[at..at + 16])));
  }

  method InvSubBytesInPlace(block: array<bv8>, at: nat)
    requires at + 16 <= block.Length
    modifies block
    ensures block[..] == Spliced(old(block[..]), at, InvSubBytes(old(block[at..at + 16])))
  {
    hide InvSBox;
    for i := 0 to 16
      invariant forall k :: at <= k < at + i ==> block[k] == InvSBox(old(block[k]))
      invariant forall k :: 0 <= k < block.Length && !(at <= k < at + i) ==> block[k] == old(block[k])
    {
      block[at + i] := InvSBox(block[at + i]);
    }
    BytewiseSpliced(old(block[..]), block[..], at, InvSubBytes(old(block[at..at + 16])));
  }

  lemma ShiftRowsBytes(b: Block)
    ensures ShiftRows(b) == [b[0], b[5], b[10], b[15], b[4], b[9], b[14], b[3], b[8], b[13], b[2], b[7], b[12], b[1], b[6], b[11]]
  {
    hide SBox;
  }

  lemma InvShiftRowsBytes(b: Block)
    ensures InvShiftRows(b) == [b[0], b[13], b[10], b[7], b[4], b[1], b[14], b[11], b[8], b[5], b[2], b[15], b[12], b[9], b[6], b[3]]
  {
    hide SBox;
  }

  // Byte i1 moves to i0, i2 to i1, i3 to i2, and i0 to i3.
  function Rotated(s: seq<bv8>, i0: nat, i1: nat, i2: nat, i3: nat): (r: seq<bv8>)
    requires i0 < |s| && i1 < |s| && i2 < |s| && i3 < |s|
    ensures |r| == |s|
  {
    s[i0 := s[i1]][i1 := s[i2]][i2 := s[i3]][i3 := s[i0]]
  }

  function Swapped(s: seq<bv8>, i: nat, j: nat): (r: seq<bv8>)
    requires i < |s| && j < |s|
    ensures |r| == |s|
  {
    s[i := s[j]][j := s[i]]
  }

  method RotateRow(block: array<bv8>, at: nat, i0: nat, i1: nat, i2: nat, i3: nat)
    requires at + 16 <= block.Length && i0 < 16 && i1 < 16 && i2 < 16 && i3 < 16
    requires i0 != i1 && i0 != i2 && i0 != i3 && i1 != i2 && i1 != i3 && i2 != i3
    modifies block
    ensures block[..] == Spliced(old(block[..]), at, Rotated(old(block[at..at + 16]), i0, i1, i2, i3))
  {
    var x := block[at + i0];
    block[at + i0] := block[at + i1];
    block[at + i1] := block[at + i2];
    block[at + i2] := block[at + i3];
    block[at + i3] := x;
    BytewiseSpliced(old(block[..]), block[..], at, Rotated(old(block[at..at + 16]), i0, i1, i2, i3));
  }

  method Swap(block: array<bv8>, at: nat, i: nat, j: nat)
    requires at + 16 <= block.Length && i < 16 && j < 16
    modifies block
    ensures block[..] == Spliced(old(block[..]), at, Swapped(old(block[at..at + 16]), i, j))
  {
    block[at + i], block[at + j] := block[at + j], block[at + i];
    BytewiseSpliced(old(block[..]), block[..], at, Swapped(old(block[at..at + 16]), i, j));
  }

  lemma ShiftRowsAsMoves(b: Block)
    ensures Rotated(Swapped(Swapped(Rotated(b, 1, 5, 9, 13), 2, 10), 6, 14), 3, 15, 11, 7) == ShiftRows(b)
  {
    ShiftRowsBytes(b);
  }

  method ShiftRowsInPlace(block: array<bv8>, at: nat)
    requires at + 16 <= block.Length
    modifies block
    ensures block[..] == Spliced(old(block[..]), at, ShiftRows(old(block[at..at + 16])))
  {
    hide ShiftRows;
    hide Rotated;
    hide Swapped;
    ghost var s := block[..];
    ghost var b := block[at..at + 16];
    ghost var row1 := Rotated(b, 1, 5, 9, 13);
    ghost var row2 := Swapped(row1, 2, 10);
    ghost var row3 := Swapped(row2, 6, 14);
    RotateRow(block, at, 1, 5, 9, 13);
    SplicedTwice(s, at, row1, row2);
    Swap(block, at, 2, 10);
    SplicedTwice(s, at, row2, row3);
    Swap(block, at, 6, 14);
    SplicedTwice(s, at, row3, ShiftRows(b));
    RotateRow(block, at, 3, 15, 11, 7);
    ShiftRowsAsMoves(b);
  }

  lemma InvShiftRowsAsMoves(b: Block)
    ensures Rotated(Swapped(Swapped(Rotated(b, 1, 13, 9, 5), 2, 10), 6, 14), 3, 7, 11, 15) == InvShiftRows(b)
  {
    InvShiftRowsBytes(b);
  }

  method InvShiftRowsInPlace(block: array<bv8>, at: nat)
    requires at + 16 <= block.Length
    modifies block
    ensures block[..] == Spliced(old(block[..]), at, InvShiftRows(old(block[at..at + 16])))
  {
    hide InvShiftRows;
    hide Rotated;
    hide Swapped;
    ghost var s := block[..];
    ghost var b := block[at..at + 16];
    ghost var row1 := Rotated(b, 1, 13, 9, 5);
    ghost var row2 := Swapped(row1, 2, 10);
    ghost var row3 := Swapped(row2, 6, 14);
    RotateRow(block, at, 1, 13, 9, 5);
    SplicedTwice(s, at, row1, row2);
    Swap(block, at, 2, 10);
    SplicedTwice(s, at, row2, row3);
    Swap(block, at, 6, 14);
    SplicedTwice(s, at, row3, InvShiftRows(b));
    RotateRow(block, at, 3, 7, 11, 15);
    InvShiftRowsAsMoves(b);
  }

  method StoreColumn(block: array<bv8>, at: nat, c0: bv8, c1: bv8, c2: bv8, c3: bv8)
    requires at + 4 <= block.Length
    modifies block
    ensures block[..] == Spliced(old(block[..]), at, [c0, c1, c2, c3])
  {
    block[at + 0] := c0;
    block[at + 1] := c1;
    block[at + 2] := c2;
    block[at + 3] := c3;
    BytewiseSpliced(old(block[..]), block[..], at, [c0, c1, c2, c3]);
  }

  // The four sums of the source's column code.
  lemma MixColumnSums(s: Column, a2: seq<bv8>, a3: seq<bv8>)
    requires |a2| == |a3| == 4
    requires forall k :: 0 <= k < 4 ==> a2[k] == GfDouble(s[k]) && a3[k] == Xor(a2[k], s[k])
    ensures MixColumn(s) == [Xor(Xor(Xor(a2[0], a3[1]), s[2]), s[3]),
                             Xor(Xor(Xor(s[0], a2[1]), a3[2]), s[3]),
                             Xor(Xor(Xor(s[0], s[1]), a2[2]), a3[3]),
                             Xor(Xor(Xor(a3[0], s[1]), s[2]), a2[3])]
  {
    hide Xor;
    hide GfMul;
    hide GfDouble;
    forall k | 0 <= k < 4
      ensures GfMul(0x01, s[k]) == s[k] && GfMul(0x02, s[k]) == a2[k] && GfMul(0x03, s[k]) == a3[k]
    {
      ProductsWithMix(s[k]);
      XorComm(s[k], a2[k]);
    }
    Xor4IsSum(a2[0], a3[1], s[2], s[3]);
    Xor4IsSum(s[0], a2[1], a3[2], s[3]);
    Xor4IsSum(s[0], s[1], a2[2], a3[3]);
    Xor4IsSum(a3[0], s[1], s[2], a2[3]);
  }

  lemma Xor4IsSum(a: bv8, b: bv8, c: bv8, d: bv8)
    ensures Xor4(a, b, c, d) == Xor(Xor(Xor(a, b), c), d)
  {
    hide Xor;
    XorAssoc(Xor(a, b), c, d);
  }

  // MixColumnsImpl of the source, on the four bytes from `at` on.
  method MixColumnsImpl(block: array<bv8>, at: nat)
    requires at + 4 <= block.Length
    modifies block
    ensures block[..] == Spliced(old(block[..]), at, MixColumn(old(block[at..at + 4])))
  {
    hide Xor;
    hide GfDouble;
    hide MixColumn;
    var a1 := new bv8[4];
    var a2 := new bv8[4];
    var a3 := new bv8[4];
    for i := 0 to 4
      invariant block[..] == old(block[..])
      invariant forall k :: 0 <= k < i ==> a1[k] == block[at + k] && a2[k] == GfDouble(a1[k]) && a3[k] == Xor(a2[k], a1[k])
    {
      a1[i] := block[at + i];
      a2[i] := GfDouble(a1[i]);
      a3[i] := Xor(a2[i], a1[i]);
    }
    ghost var s := old(block[at..at + 4]);
    assert a1[..] == s;
    MixColumnSums(s, a2[..], a3[..]);
    StoreColumn(block, at,
                Xor(Xor(Xor(a2[0], a3[1]), a1[2]), a1[3]),
                Xor(Xor(Xor(a1[0], a2[1]), a3[2]), a1[3]),
                Xor(Xor(Xor(a1[0], a1[1]), a2[2]), a3[3]),
                Xor(Xor(Xor(a3[0], a1[1]), a1[2]), a2[3]));
  }

  lemma InvMixColumnSums(s: Column, a9: seq<bv8>, a11: seq<bv8>, a13: seq<bv8>, a14: seq<bv8>)
    requires |a9| == |a11| == |a13| == |a14| == 4
    requires forall k :: 0 <= k < 4 ==> a9[k] == GfMul(0x09, s[k]) && a11[k] == GfMul(0x0b, s[k])
    requires forall k :: 0 <= k < 4 ==> a13[k] == GfMul(0x0d, s[k]) && a14[k] == GfMul(0x0e, s[k])
    ensures InvMixColumn(s) == [Xor(Xor(Xor(a14[0], a11[1]), a13[2]), a9[3]),
                                Xor(Xor(Xor(a9[0], a14[1]), a11[2]), a13[3]),
                                Xor(Xor(Xor(a13[0], a9[1]), a14[2]), a11[3]),
                                Xor(Xor(Xor(a11[0], a13[1]), a9[2]), a14[3])]
  {
    hide Xor;
    hide GfMul;
    Xor4IsSum(a14[0], a11[1], a13[2], a9[3]);
    Xor4IsSum(a9[0], a14[1], a11[2], a13[3]);
    Xor4IsSum(a13[0], a9[1], a14[2], a11[3]);
    Xor4IsSum(a11[0], a13[1], a9[2], a14[3]);
  }

  // The source's factored products are the products of equation 5.10.
  lemma FactoredProducts(v: bv8)
    ensures var a2 := GfDouble(v);
            var a2_2 := GfDouble(a2);
            var a2a1_2 := GfDouble(Xor(a2, v));
            && Xor(GfDouble(a2_2), v) == GfMul(0x09, v)
            && Xor(GfDouble(Xor(a2_2, v)), v) == GfMul(0x0b, v)
            && Xor(GfDouble(a2a1_2), v) == GfMul(0x0d, v)
            && GfDouble(Xor(a2a1_2, v)) == GfMul(0x0e, v)
  {
    hide Xor;
    hide GfDouble;
    hide GfMul;
    var d1 := GfDouble(v);
    var d2 := GfDouble(d1);
    var d3 := GfDouble(d2);
    ProductsWithInvMix(v);
    XorComm(d3, v);
    GfDoubleLinear(d2, v);
    XorAssoc(d3, d1, v);
    XorComm(d3, Xor(d1, v));
    XorComm(d1, v);
    GfDoubleLinear(d1, v);
    GfDoubleLinear(d2, d1);
    XorComm(Xor(d3, d2), v);
    XorComm(d3, d2);
    GfDoubleLinear(Xor(d2, d1), v);
    XorComm(Xor(d2, d3), d1);
  }

  // InvMixColumnsImpl of the source.
  method InvMixColumnsImpl(block: array<bv8>, at: nat)
    requires at + 4 <= block.Length
    modifies block
    ensures block[..] == Spliced(old(block[..]), at, InvMixColumn(old(block[at..at + 4])))
  {
    hide Xor;
    hide GfDouble;
    hide GfMul;
    hide InvMixColumn;
    var a9 := new bv8[4];
    var a11 := new bv8[4];
    var a13 := new bv8[4];
    var a14 := new bv8[4];
    for i := 0 to 4
      invariant block[..] == old(block[..])
      invariant forall k :: 0 <= k < i ==> a9[k] == GfMul(0x09, block[at + k]) && a11[k] == GfMul(0x0b, block[at + k])
      invariant forall k :: 0 <= k < i ==> a13[k] == GfMul(0x0d, block[at + k]) && a14[k] == GfMul(0x0e, block[at + k])
    {
      var a1 := block[at + i];
      var a2 := GfDouble(a1);
      var a2_2 := GfDouble(a2);
      a9[i] := Xor(GfDouble(a2_2), a1);
      a11[i] := Xor(GfDouble(Xor(a2_2, a1)), a1);
      var a2a1_2 := GfDouble(Xor(a2, a1));
      a13[i] := Xor(GfDouble(a2a1_2), a1);
      a14[i] := GfDouble(Xor(a2a1_2, a1));
      FactoredProducts(a1);
    }
    ghost var s := old(block[at..at + 4]);
    InvMixColumnSums(s, a9[..], a11[..], a13[..], a14[..]);
    StoreColumn(block, at,
                Xor(Xor(Xor(a14[0], a11[1]), a13[2]), a9[3]),
                Xor(Xor(Xor(a9[0], a14[1]), a11[2]), a13[3]),
                Xor(Xor(Xor(a13[0], a9[1]), a14[2]), a11[3]),
                Xor(Xor(Xor(a11[0], a13[1]), a9[2]), a14[3]));
  }

  // The first i bytes mixed, the rest not yet.
  function Halfway(b: Block, mixed: Block, i: nat): Block
    requires i <= 16
  {
    mixed[..i] + b[i..]
  }

  lemma HalfwayEnds(s: seq<bv8>, at: nat, b: Block, mixed: Block)
    requires at + 16 <= |s| && b == s[at..at + 16]
    ensures Spliced(s, at, Halfway(b, mixed, 0)) == s
    ensures Halfway(b, mixed, 16) == mixed
  {
  }

  lemma NextColumn(s: seq<bv8>, at: nat, b: Block, mixed: Block, i: nat)
    requires at + 16 <= |s| && i + 4 <= 16
    ensures var now := Spliced(s, at, Halfway(b, mixed, i));
            && |now| == |s|
            && now[at + i..at + i + 4] == b[i..i + 4]
            && Spliced(now, at + i, mixed[i..i + 4]) == Spliced(s, at, Halfway(b, mixed, i + 4))
  {
  }

  method MixColumnsInPlace(block: array<bv8>, at: nat)
    requires at + 16 <= block.Length
    modifies block
    ensures block[..] == Spliced(old(block[..]), at, MixColumns(old(block[at..at + 16])))
  {
    hide MixColumns;
    hide MixColumn;
    hide Spliced;
    hide Halfway;
    ghost var s, b := block[..], block[at..at + 16];
    ghost var mixed := MixColumns(b);
    HalfwayEnds(s, at, b, mixed);
    for c := 0 to 4
      invariant block[..] == Spliced(s, at, Halfway(b, mixed, 4 * c))
    {
      ColumnOfMixColumns(b, c);
      NextColumn(s, at, b, mixed, 4 * c);
      MixColumnsImpl(block, at + 4 * c);
    }
  }

  method InvMixColumnsInPlace(block: array<bv8>, at: nat)
    requires at + 16 <= block.Length
    modifies block
    ensures block[..] == Spliced(old(block[..]), at, InvMixColumns(old(block[at..at + 16])))
  {
    hide InvMixColumns;
    hide InvMixColumn;
    hide Spliced;
    hide Halfway;
    ghost var s, b := block[..], block[at..at + 16];
    ghost var mixed := InvMixColumns(b);
    HalfwayEnds(s, at, b, mixed);
    for c := 0 to 4
      invariant block[..] == Spliced(s, at, Halfway(b, mixed, 4 * c))
    {
      ColumnOfMixColumns(b, c);
      NextColumn(s, at, b, mixed, 4 * c);
      InvMixColumnsImpl(block, at + 4 * c);
    }
  }

  lemma Chain(s: seq<bv8>, at: nat, p: Block, q: Block)
    requires at + 16 <= |s|
    ensures |Spliced(s, at, p)| == |s|
    ensures Spliced(s, at, p)[at..at + 16] == p
    ensures Spliced(Spliced(s, at, p), at, q) == Spliced(s, at, q)
  {
    SplicedTwice(s, at, p, q);
  }

  lemma RoundKeyAt(w: Schedule, round: nat)
    requires round <= ROUNDS
    ensures w[16 * round..16 * round + 16] == RoundKey(w, round)
  {
  }

  // TransformECB of the source.
  method TransformECB(w: array<bv8>, block: array<bv8>, at: nat)
    requires w.Length == 240 && at + 16 <= block.Length && w != block
    modifies block
    ensures block[..] == Spliced(old(block[..]), at, Cipher(w[..], old(block[at..at + 16])))
  {
    hide XorBlock;
    hide SubBytes;
    hide ShiftRows;
    hide MixColumns;
    hide Spliced;
    ghost var s, b, k := block[..], block[at..at + 16], w[..];
    RoundKeyAt(k, 0);
    AddRoundKey(block, at, w, 0);
    for round := 1 to ROUNDS
      invariant block[..] == Spliced(s, at, CipherState(k, b, round - 1))
    {
      ghost var before := CipherState(k, b, round - 1);
      Chain(s, at, before, SubBytes(before));
      SubBytesInPlace(block, at);
      Chain(s, at, SubBytes(before), ShiftRows(SubBytes(before)));
      ShiftRowsInPlace(block, at);
      Chain(s, at, ShiftRows(SubBytes(before)), MixColumns(ShiftRows(SubBytes(before))));
      MixColumnsInPlace(block, at);
      Chain(s, at, MixColumns(ShiftRows(SubBytes(before))), CipherState(k, b, round));
      RoundKeyAt(k, round);
      AddRoundKey(block, at, w, 16 * round);
    }
    ghost var last := CipherState(k, b, ROUNDS - 1);
    Chain(s, at, last, SubBytes(last));
    SubBytesInPlace(block, at);
    Chain(s, at, SubBytes(last), ShiftRows(SubBytes(last)));
    ShiftRowsInPlace(block, at);
    Chain(s, at, ShiftRows(SubBytes(last)), Cipher(k, b));
    RoundKeyAt(k, ROUNDS);
    AddRoundKey(block, at, w, 16 * ROUNDS);
  }

  // InverseTransformECB of the source.
  method InverseTransformECB(w: array<bv8>, block: array<bv8>, at: nat)
    requires w.Length == 240 && at + 16 <= block.Length && w != block
    modifies block
    ensures block[..] == Spliced(old(block[..]), at, InvCipher(w[..], old(block[at..at + 16])))
  {
    hide XorBlock;
    hide InvSubBytes;
    hide InvShiftRows;
    hide InvMixColumns;
    hide Spliced;
    ghost var s, b, k := block[..], block[at..at + 16], w[..];
    ghost var first := XorBlock(b, RoundKey(k, ROUNDS));
    RoundKeyAt(k, ROUNDS);
    AddRoundKey(block, at, w, 16 * ROUNDS);
    Chain(s, at, first, InvShiftRows(first));
    InvShiftRowsInPlace(block, at);
    Chain(s, at, InvShiftRows(first), InvSubBytes(InvShiftRows(first)));
    InvSubBytesInPlace(block, at);
    for round := ROUNDS downto 1
      invariant block[..] == Spliced(s, at, InvCipherState(k, b, round))
    {
      ghost var above := InvCipherState(k, b, round + 1);
      ghost var unkeyed := XorBlock(above, RoundKey(k, round));
      ghost var unmixed := InvMixColumns(unkeyed);
      RoundKeyAt(k, round);
      Chain(s, at, above, unkeyed);
      AddRoundKey(block, at, w, 16 * round);
      Chain(s, at, unkeyed, unmixed);
      InvMixColumnsInPlace(block, at);
      Chain(s, at, unmixed, InvShiftRows(unmixed));
      InvShiftRowsInPlace(block, at);
      Chain(s, at, InvShiftRows(unmixed), InvSubBytes(InvShiftRows(unmixed)));
      InvSubBytesInPlace(block, at);
    }
    Chain(s, at, InvCipherState(k, b, 1), InvCipher(k, b));
    RoundKeyAt(k, 0);
    AddRoundKey(block, at, w, 0);
  }
}
