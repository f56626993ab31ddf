// The example of Appendix C.3 of FIPS 197: the key 00 01 .. 1f and the block 00 11 ..
// ff, round by round. And what each round key does to the cipher.
module AesVectors {
  import opened Gf256
  import opened SBoxTables
  import opened Columns
  import opened Aes256
  import opened KeySchedule
  import AesInPlace

  // ---- A round, byte by byte.

  // Three times a byte.
  function Tripled(v: bv8): bv8 {
    Xor(v, GfDouble(v))
  }

  // The four bytes of a column after a round.
  function RoundColumn(a: bv8, b: bv8, c: bv8, d: bv8, k0: bv8, k1: bv8, k2: bv8, k3: bv8): Word {
    var e, f, g, h := SBox(a), SBox(b), SBox(c), SBox(d);
    [Xor(Xor4(GfDouble(e), Tripled(f), g, h), k0), Xor(Xor4(e, GfDouble(f), Tripled(g), h), k1),
     Xor(Xor4(e, f, GfDouble(g), Tripled(h)), k2), Xor(Xor4(Tripled(e), f, g, GfDouble(h)), k3)]
  }

  lemma MixedColumn(a: bv8, b: bv8, c: bv8, d: bv8, k: Word)
    ensures XorWord(MixColumn([SBox(a), SBox(b), SBox(c), SBox(d)]), k) == RoundColumn(a, b, c, d, k[0], k[1], k[2], k[3])
  {
    hide SBox;
    hide GfMul;
    hide GfDouble;
    hide Xor;
    ProductsWithMix(SBox(a));
    ProductsWithMix(SBox(b));
    ProductsWithMix(SBox(c));
    ProductsWithMix(SBox(d));
  }

  lemma SubbedAt(s: Block, c: nat, i: nat)
    requires c < 4 && i < 4
    ensures ShiftRows(SubBytes(s))[4 * c + i] == SBox(s[(4 * c + 5 * i) % 16])
  {
    hide SBox;
    assert (4 * c + i) % 4 == i;
  }

  lemma Listed(b: Block, c: nat)
    requires c < 4
    ensures ColumnAt(b, c) == [b[4 * c], b[4 * c + 1], b[4 * c + 2], b[4 * c + 3]]
  {
  }

  lemma SubbedColumn(s: Block, c: nat)
    requires c < 4
    ensures ColumnAt(ShiftRows(SubBytes(s)), c) ==
            [SBox(s[4 * c]), SBox(s[(4 * c + 5) % 16]), SBox(s[(4 * c + 10) % 16]), SBox(s[(4 * c + 15) % 16])]
  {
    hide *;
    Listed(ShiftRows(SubBytes(s)), c);
    SubbedAt(s, c, 0);
    SubbedAt(s, c, 1);
    SubbedAt(s, c, 2);
    SubbedAt(s, c, 3);
  }

  lemma KeyedColumn(b: Block, k: Block, c: nat)
    requires c < 4
    ensures ColumnAt(XorBlock(b, k), c) == XorWord(ColumnAt(b, c), ColumnAt(k, c))
  {
    hide Xor;
  }

  lemma MixedAt(t: Block, k: Block, c: nat)
    requires c < 4
    ensures ColumnAt(XorBlock(MixColumns(t), k), c) == XorWord(MixColumn(ColumnAt(t, c)), ColumnAt(k, c))
  {
    ColumnOfMixColumns(t, c);
    KeyedColumn(MixColumns(t), k, c);
    hide *;
  }

  lemma RoundAt(s: Block, k: Block, c: nat)
    requires c < 4
    ensures ColumnAt(XorBlock(MixColumns(ShiftRows(SubBytes(s))), k), c) ==
            RoundColumn(s[4 * c], s[(4 * c + 5) % 16], s[(4 * c + 10) % 16], s[(4 * c + 15) % 16],
                        k[4 * c], k[4 * c + 1], k[4 * c + 2], k[4 * c + 3])
  {
    hide SBox;
    hide ShiftRows;
    hide SubBytes;
    hide MixColumns;
    hide MixColumn;
    hide XorBlock;
    hide XorWord;
    hide RoundColumn;
    var t := ShiftRows(SubBytes(s));
    SubbedColumn(s, c);
    MixedAt(t, k, c);
    MixedColumn(s[4 * c], s[(4 * c + 5) % 16], s[(4 * c + 10) % 16], s[(4 * c + 15) % 16], ColumnAt(k, c));
  }

  lemma FourColumns(b: Block)
    ensures b == ColumnAt(b, 0) + ColumnAt(b, 1) + ColumnAt(b, 2) + ColumnAt(b, 3)
  {
  }

  function RoundOf(s: Block, k: Block): Block {
    RoundColumn(s[0], s[5], s[10], s[15], k[0], k[1], k[2], k[3])
    + RoundColumn(s[4], s[9], s[14], s[3], k[4], k[5], k[6], k[7])
    + RoundColumn(s[8], s[13], s[2], s[7], k[8], k[9], k[10], k[11])
    + RoundColumn(s[12], s[1], s[6], s[11], k[12], k[13], k[14], k[15])
  }

  lemma RoundColumns(s: Block, k: Block)
    ensures XorBlock(MixColumns(ShiftRows(SubBytes(s))), k) == RoundOf(s, k)
  {
    var r := XorBlock(MixColumns(ShiftRows(SubBytes(s))), k);
    hide RoundColumn;
    hide MixColumns;
    hide ShiftRows;
    hide SubBytes;
    hide XorBlock;
    hide ColumnAt;
    RoundAt(s, k, 0);
    RoundAt(s, k, 1);
    RoundAt(s, k, 2);
    RoundAt(s, k, 3);
    FourColumns(r);
  }

  // The four bytes of a column after the last round.
  function LastColumn(a: bv8, b: bv8, c: bv8, d: bv8, k0: bv8, k1: bv8, k2: bv8, k3: bv8): Word {
    [Xor(SBox(a), k0), Xor(SBox(b), k1), Xor(SBox(c), k2), Xor(SBox(d), k3)]
  }

  lemma LastRoundAt(s: Block, k: Block, c: nat)
    requires c < 4
    ensures ColumnAt(XorBlock(ShiftRows(SubBytes(s)), k), c) ==
            LastColumn(s[4 * c], s[(4 * c + 5) % 16], s[(4 * c + 10) % 16], s[(4 * c + 15) % 16],
                       k[4 * c], k[4 * c + 1], k[4 * c + 2], k[4 * c + 3])
  {
    SubbedColumn(s, c);
    KeyedColumn(ShiftRows(SubBytes(s)), k, c);
    Listed(k, c);
    hide ShiftRows;
    hide SubBytes;
    hide XorBlock;
    hide ColumnAt;
    hide SBox;
    hide Xor;
  }

  function LastRoundOf(s: Block, k: Block): Block {
    LastColumn(s[0], s[5], s[10], s[15], k[0], k[1], k[2], k[3])
    + LastColumn(s[4], s[9], s[14], s[3], k[4], k[5], k[6], k[7])
    + LastColumn(s[8], s[13], s[2], s[7], k[8], k[9], k[10], k[11])
    + LastColumn(s[12], s[1], s[6], s[11], k[12], k[13], k[14], k[15])
  }

  lemma LastRoundColumns(s: Block, k: Block)
    ensures XorBlock(ShiftRows(SubBytes(s)), k) == LastRoundOf(s, k)
  {
    hide LastColumn;
    hide ShiftRows;
    hide SubBytes;
    hide XorBlock;
    hide ColumnAt;
    LastRoundAt(s, k, 0);
    LastRoundAt(s, k, 1);
    LastRoundAt(s, k, 2);
    LastRoundAt(s, k, 3);
    FourColumns(XorBlock(ShiftRows(SubBytes(s)), k));
  }

  // ---- The key schedule, one round key at a time.

  // The words of round key h are the columns of this block.
  ghost predicate IsRoundKey(key: Key, h: nat, b: Block) {
    && ExpandedWord(key, 4 * h) == ColumnAt(b, 0) && ExpandedWord(key, 4 * h + 1) == ColumnAt(b, 1)
    && ExpandedWord(key, 4 * h + 2) == ColumnAt(b, 2) && ExpandedWord(key, 4 * h + 3) == ColumnAt(b, 3)
  }

  // A round key from the one two before and the word that is combined with its first.
  function NextKey(p: Block, e: bv8, f: bv8, g: bv8, h: bv8): Block {
    var a0, a1, a2, a3 := Xor(p[0], e), Xor(p[1], f), Xor(p[2], g), Xor(p[3], h);
    var b0, b1, b2, b3 := Xor(p[4], a0), Xor(p[5], a1), Xor(p[6], a2), Xor(p[7], a3);
    var c0, c1, c2, c3 := Xor(p[8], b0), Xor(p[9], b1), Xor(p[10], b2), Xor(p[11], b3);
    [a0, a1, a2, a3, b0, b1, b2, b3, c0, c1, c2, c3,
     Xor(p[12], c0), Xor(p[13], c1), Xor(p[14], c2), Xor(p[15], c3)]
  }

  lemma NextKeyColumns(p: Block, w: Word)
    ensures var n := NextKey(p, w[0], w[1], w[2], w[3]);
            && ColumnAt(n, 0) == XorWord(ColumnAt(p, 0), w) && ColumnAt(n, 1) == XorWord(ColumnAt(p, 1), ColumnAt(n, 0))
            && ColumnAt(n, 2) == XorWord(ColumnAt(p, 2), ColumnAt(n, 1))
            && ColumnAt(n, 3) == XorWord(ColumnAt(p, 3), ColumnAt(n, 2))
  {
    hide Xor;
    var n := NextKey(p, w[0], w[1], w[2], w[3]);
    Listed(n, 0);
    Listed(n, 1);
    Listed(n, 2);
    Listed(n, 3);
    Listed(p, 0);
    Listed(p, 1);
    Listed(p, 2);
    Listed(p, 3);
    hide ColumnAt;
  }

  lemma FirstWord(key: Key, h: nat)
    requires h >= 2
    ensures var temp := ExpandedWord(key, 4 * h - 1);
            ExpandedWord(key, 4 * h) ==
            XorWord(ExpandedWord(key, 4 * h - 8),
                    if h % 2 == 0 then XorWord(SubWord(RotWord(temp)), Rcon(h / 2)) else SubWord(temp))
  {
    hide *;
    var i := 4 * (h % 2);
    assert 8 * (h / 2) + i == 4 * h && (i == if h % 2 == 0 then 0 else 4);
    WordRecurrence(key, h / 2, i);
  }

  lemma OtherWord(key: Key, h: nat, j: nat)
    requires h >= 2 && 1 <= j < 4
    ensures ExpandedWord(key, 4 * h + j) == XorWord(ExpandedWord(key, 4 * h + j - 8), ExpandedWord(key, 4 * h + j - 1))
  {
    hide *;
    var i := 4 * (h % 2) + j;
    assert 8 * (h / 2) + i == 4 * h + j && i < 8 && i != 0 && i != 4;
    WordRecurrence(key, h / 2, i);
  }

  lemma NextIsRoundKey(key: Key, h: nat, p: Block, w: Word)
    requires h >= 2 && IsRoundKey(key, h - 2, p) && ExpandedWord(key, 4 * h) == XorWord(ColumnAt(p, 0), w)
    ensures IsRoundKey(key, h, NextKey(p, w[0], w[1], w[2], w[3]))
  {
    hide ExpandedWord;
    hide XorWord;
    hide NextKey;
    hide ColumnAt;
    NextKeyColumns(p, w);
    OtherWord(key, h, 1);
    OtherWord(key, h, 2);
    OtherWord(key, h, 3);
  }

  lemma EvenRoundKey(key: Key, h: nat, p: Block, q: Block)
    requires h >= 2 && h % 2 == 0 && IsRoundKey(key, h - 2, p) && IsRoundKey(key, h - 1, q)
    ensures IsRoundKey(key, h, NextKey(p, Xor(SBox(q[13]), PowerOfX(h / 2 - 1)), SBox(q[14]), SBox(q[15]), SBox(q[12])))
  {
    hide ExpandedWord;
    hide PowerOfX;
    hide SBox;
    hide NextKey;
    hide ColumnAt;
    FirstWord(key, h);
    Listed(q, 3);
    var w: Word := [Xor(SBox(q[13]), PowerOfX(h / 2 - 1)), SBox(q[14]), SBox(q[15]), SBox(q[12])];
    XorZero(SBox(q[14]));
    XorZero(SBox(q[15]));
    XorZero(SBox(q[12]));
    hide Xor;
    assert XorWord(SubWord(RotWord(ColumnAt(q, 3))), Rcon(h / 2)) == w;
    hide XorWord;
    NextIsRoundKey(key, h, p, w);
  }

  lemma OddRoundKey(key: Key, h: nat, p: Block, q: Block)
    requires h >= 2 && h % 2 == 1 && IsRoundKey(key, h - 2, p) && IsRoundKey(key, h - 1, q)
    ensures IsRoundKey(key, h, NextKey(p, SBox(q[12]), SBox(q[13]), SBox(q[14]), SBox(q[15])))
  {
    hide ExpandedWord;
    hide SBox;
    hide NextKey;
    hide ColumnAt;
    hide XorWord;
    FirstWord(key, h);
    Listed(q, 3);
    NextIsRoundKey(key, h, p, SubWord(ColumnAt(q, 3)));
  }

  lemma ByteInColumn(w: Schedule, h: nat, j: nat, r: nat)
    requires h <= ROUNDS && j < 4 && r < 4
    ensures ColumnAt(RoundKey(w, h), j)[r] == w[16 * h + 4 * j + r]
  {
    var k, i := RoundKey(w, h), 4 * j + r;
    assert ColumnAt(k, j)[r] == k[i] == w[16 * h + i];
  }

  lemma WordInKey(key: Key, h: nat, j: nat)
    requires h <= ROUNDS && j < 4
    ensures ColumnAt(RoundKey(ExpandedKey(key), h), j) == ExpandedWord(key, 4 * h + j)
  {
    var c, word := ColumnAt(RoundKey(ExpandedKey(key), h), j), ExpandedWord(key, 4 * h + j);
    forall r | 0 <= r < 4 ensures c[r] == word[r] {
      var n := 16 * h + 4 * j + r;
      ByteInColumn(ExpandedKey(key), h, j, r);
      assert n / 4 == 4 * h + j && n % 4 == r;
      assert ExpandedKey(key)[n] == ExpandedByte(key, n);
    }
    hide ExpandedKey;
    hide ExpandedWord;
  }

  lemma RoundKeyIs(key: Key, h: nat, b: Block)
    requires h <= ROUNDS && IsRoundKey(key, h, b)
    ensures RoundKey(ExpandedKey(key), h) == b
  {
    hide ExpandedWord;
    hide ExpandedKey;
    hide ColumnAt;
    WordInKey(key, h, 0);
    WordInKey(key, h, 1);
    WordInKey(key, h, 2);
    WordInKey(key, h, 3);
    FourColumns(RoundKey(ExpandedKey(key), h));
    FourColumns(b);
  }

  // ---- The last round key.

  lemma {:induction false} StateBeforeLastKey(w: Schedule, w': Schedule, b: Block, round: nat)
    requires round < ROUNDS && w[..224] == w'[..224]
    ensures CipherState(w, b, round) == CipherState(w', b, round)
  {
    hide XorBlock;
    hide MixColumns;
    hide ShiftRows;
    hide SubBytes;
    assert RoundKey(w, round) == w[..224][16 * round..16 * round + 16] == RoundKey(w', round);
    if round > 0 {
      StateBeforeLastKey(w, w', b, round - 1);
    }
  }

  // The last sixteen bytes of the schedule go in last of all: taken out again, what
  // is left of the cipher depends on the others only.
  lemma LastKeyGoesInLast(w: Schedule, w': Schedule, b: Block)
    requires w[..224] == w'[..224]
    ensures XorBlock(Cipher(w, b), w[224..240]) == XorBlock(Cipher(w', b), w'[224..240])
  {
    StateBeforeLastKey(w, w', b, ROUNDS - 1);
    hide CipherState;
    hide XorBlock;
    hide ShiftRows;
    hide SubBytes;
    var last := ShiftRows(SubBytes(CipherState(w, b, ROUNDS - 1)));
    XorBlockInverse(last, w[224..240]);
    XorBlockInverse(last, w'[224..240]);
  }

  // ---- The example.

  const KEY: Key := [0x00, 0x01, 0x02, 0x03, 0x04, 0x05, 0x06, 0x07, 0x08, 0x09, 0x0a, 0x0b, 0x0c, 0x0d, 0x0e, 0x0f,
                     0x10, 0x11, 0x12, 0x13, 0x14, 0x15, 0x16, 0x17, 0x18, 0x19, 0x1a, 0x1b, 0x1c, 0x1d, 0x1e, 0x1f]
  const BLOCK: Block := [0x00, 0x11, 0x22, 0x33, 0x44, 0x55, 0x66, 0x77, 0x88, 0x99, 0xaa, 0xbb, 0xcc, 0xdd, 0xee, 0xff]

  const K0: Block := [0x00, 0x01, 0x02, 0x03, 0x04, 0x05, 0x06, 0x07, 0x08, 0x09, 0x0a, 0x0b, 0x0c, 0x0d, 0x0e, 0x0f]
  const K1: Block := [0x10, 0x11, 0x12, 0x13, 0x14, 0x15, 0x16, 0x17, 0x18, 0x19, 0x1a, 0x1b, 0x1c, 0x1d, 0x1e, 0x1f]
  const K2: Block := [0xa5, 0x73, 0xc2, 0x9f, 0xa1, 0x76, 0xc4, 0x98, 0xa9, 0x7f, 0xce, 0x93, 0xa5, 0x72, 0xc0, 0x9c]
  const K3: Block := [0x16, 0x51, 0xa8, 0xcd, 0x02, 0x44, 0xbe, 0xda, 0x1a, 0x5d, 0xa4, 0xc1, 0x06, 0x40, 0xba, 0xde]
  const K4: Block := [0xae, 0x87, 0xdf, 0xf0, 0x0f, 0xf1, 0x1b, 0x68, 0xa6, 0x8e, 0xd5, 0xfb, 0x03, 0xfc, 0x15, 0x67]
  const K5: Block := [0x6d, 0xe1, 0xf1, 0x48, 0x6f, 0xa5, 0x4f, 0x92, 0x75, 0xf8, 0xeb, 0x53, 0x73, 0xb8, 0x51, 0x8d]
  const K6: Block := [0xc6, 0x56, 0x82, 0x7f, 0xc9, 0xa7, 0x99, 0x17, 0x6f, 0x29, 0x4c, 0xec, 0x6c, 0xd5, 0x59, 0x8b]
  const K7: Block := [0x3d, 0xe2, 0x3a, 0x75, 0x52, 0x47, 0x75, 0xe7, 0x27, 0xbf, 0x9e, 0xb4, 0x54, 0x07, 0xcf, 0x39]
  const K8: Block := [0x0b, 0xdc, 0x90, 0x5f, 0xc2, 0x7b, 0x09, 0x48, 0xad, 0x52, 0x45, 0xa4, 0xc1, 0x87, 0x1c, 0x2f]
  const K9: Block := [0x45, 0xf5, 0xa6, 0x60, 0x17, 0xb2, 0xd3, 0x87, 0x30, 0x0d, 0x4d, 0x33, 0x64, 0x0a, 0x82, 0x0a]
  const K10: Block := [0x7c, 0xcf, 0xf7, 0x1c, 0xbe, 0xb4, 0xfe, 0x54, 0x13, 0xe6, 0xbb, 0xf0, 0xd2, 0x61, 0xa7, 0xdf]
  const K11: Block := [0xf0, 0x1a, 0xfa, 0xfe, 0xe7, 0xa8, 0x29, 0x79, 0xd7, 0xa5, 0x64, 0x4a, 0xb3, 0xaf, 0xe6, 0x40]
  const K12: Block := [0x25, 0x41, 0xfe, 0x71, 0x9b, 0xf5, 0x00, 0x25, 0x88, 0x13, 0xbb, 0xd5, 0x5a, 0x72, 0x1c, 0x0a]
  const K13: Block := [0x4e, 0x5a, 0x66, 0x99, 0xa9, 0xf2, 0x4f, 0xe0, 0x7e, 0x57, 0x2b, 0xaa, 0xcd, 0xf8, 0xcd, 0xea]
  const K14: Block := [0x24, 0xfc, 0x79, 0xcc, 0xbf, 0x09, 0x79, 0xe9, 0x37, 0x1a, 0xc2, 0x3c, 0x6d, 0x68, 0xde, 0x36]

  const S0: Block := [0x00, 0x10, 0x20, 0x30, 0x40, 0x50, 0x60, 0x70, 0x80, 0x90, 0xa0, 0xb0, 0xc0, 0xd0, 0xe0, 0xf0]
  const S1: Block := [0x4f, 0x63, 0x76, 0x06, 0x43, 0xe0, 0xaa, 0x85, 0xef, 0xa7, 0x21, 0x32, 0x01, 0xa4, 0xe7, 0x05]
  const S2: Block := [0x18, 0x59, 0xfb, 0xc2, 0x8a, 0x1c, 0x00, 0xa0, 0x78, 0xed, 0x8a, 0xad, 0xc4, 0x2f, 0x61, 0x09]
  const S3: Block := [0x97, 0x5c, 0x66, 0xc1, 0xcb, 0x9f, 0x3f, 0xa8, 0xa9, 0x3a, 0x28, 0xdf, 0x8e, 0xe1, 0x0f, 0x63]
  const S4: Block := [0x1c, 0x05, 0xf2, 0x71, 0xa4, 0x17, 0xe0, 0x4f, 0xf9, 0x21, 0xc5, 0xc1, 0x04, 0x70, 0x15, 0x54]
  const S5: Block := [0xc3, 0x57, 0xaa, 0xe1, 0x1b, 0x45, 0xb7, 0xb0, 0xa2, 0xc7, 0xbd, 0x28, 0xa8, 0xdc, 0x99, 0xfa]
  const S6: Block := [0x7f, 0x07, 0x41, 0x43, 0xcb, 0x4e, 0x24, 0x3e, 0xc1, 0x0c, 0x81, 0x5d, 0x83, 0x75, 0xd5, 0x4c]
  const S7: Block := [0xd6, 0x53, 0xa4, 0x69, 0x6c, 0xa0, 0xbc, 0x0f, 0x5a, 0xca, 0xab, 0x5d, 0xb9, 0x6c, 0x5e, 0x7d]
  const S8: Block := [0x5a, 0xa8, 0x58, 0x39, 0x5f, 0xd2, 0x8d, 0x7d, 0x05, 0xe1, 0xa3, 0x88, 0x68, 0xf3, 0xb9, 0xc5]
  const S9: Block := [0x4a, 0x82, 0x48, 0x51, 0xc5, 0x7e, 0x7e, 0x47, 0x64, 0x3d, 0xe5, 0x0c, 0x2a, 0xf3, 0xe8, 0xc9]
  const S10: Block := [0xc1, 0x49, 0x07, 0xf6, 0xca, 0x3b, 0x3a, 0xa0, 0x70, 0xe9, 0xaa, 0x31, 0x3b, 0x52, 0xb5, 0xec]
  const S11: Block := [0x5f, 0x9c, 0x6a, 0xbf, 0xba, 0xc6, 0x34, 0xaa, 0x50, 0x40, 0x9f, 0xa7, 0x66, 0x67, 0x76, 0x53]
  const S12: Block := [0x51, 0x66, 0x04, 0x95, 0x43, 0x53, 0x95, 0x03, 0x14, 0xfb, 0x86, 0xe4, 0x01, 0x92, 0x25, 0x21]
  const S13: Block := [0x62, 0x7b, 0xce, 0xb9, 0x99, 0x9d, 0x5a, 0xaa, 0xc9, 0x45, 0xec, 0xf4, 0x23, 0xf5, 0x6d, 0xa5]
  const RESULT: Block := [0x8e, 0xa2, 0xb7, 0xca, 0x51, 0x67, 0x45, 0xbf, 0xea, 0xfc, 0x49, 0x90, 0x4b, 0x49, 0x60, 0x89]

  lemma Key0()
    ensures IsRoundKey(KEY, 0, K0)
  {
  }

  lemma Key1()
    ensures IsRoundKey(KEY, 1, K1)
  {
  }

  lemma Key2()
    ensures IsRoundKey(KEY, 2, K2)
  {
    Key0();
    Key1();
    EvenRoundKey(KEY, 2, K0, K1);
    RoundConstant(0);
    hide PowerOfX;
    hide IsRoundKey;
    hide ExpandedWord;
  }

  lemma Key3()
    ensures IsRoundKey(KEY, 3, K3)
  {
    Key1();
    Key2();
    OddRoundKey(KEY, 3, K1, K2);
    hide IsRoundKey;
    hide ExpandedWord;
  }

  lemma Key4()
    ensures IsRoundKey(KEY, 4, K4)
  {
    Key2();
    Key3();
    EvenRoundKey(KEY, 4, K2, K3);
    RoundConstant(1);
    hide PowerOfX;
    hide IsRoundKey;
    hide ExpandedWord;
  }

  lemma Key5()
    ensures IsRoundKey(KEY, 5, K5)
  {
    Key3();
    Key4();
    OddRoundKey(KEY, 5, K3, K4);
    hide IsRoundKey;
    hide ExpandedWord;
  }

  lemma Key6()
    ensures IsRoundKey(KEY, 6, K6)
  {
    Key4();
    Key5();
    EvenRoundKey(KEY, 6, K4, K5);
    RoundConstant(2);
    hide PowerOfX;
    hide IsRoundKey;
    hide ExpandedWord;
  }

  lemma Key7()
    ensures IsRoundKey(KEY, 7, K7)
  {
    Key5();
    Key6();
    OddRoundKey(KEY, 7, K5, K6);
    hide IsRoundKey;
    hide ExpandedWord;
  }

  lemma Key8()
    ensures IsRoundKey(KEY, 8, K8)
  {
    Key6();
    Key7();
    EvenRoundKey(KEY, 8, K6, K7);
    RoundConstant(3);
    hide PowerOfX;
    hide IsRoundKey;
    hide ExpandedWord;
  }

  lemma Key9()
    ensures IsRoundKey(KEY, 9, K9)
  {
    Key7();
    Key8();
    OddRoundKey(KEY, 9, K7, K8);
    hide IsRoundKey;
    hide ExpandedWord;
  }

  lemma Key10()
    ensures IsRoundKey(KEY, 10, K10)
  {
    Key8();
    Key9();
    EvenRoundKey(KEY, 10, K8, K9);
    RoundConstant(4);
    hide PowerOfX;
    hide IsRoundKey;
    hide ExpandedWord;
  }

  lemma Key11()
    ensures IsRoundKey(KEY, 11, K11)
  {
    Key9();
    Key10();
    OddRoundKey(KEY, 11, K9, K10);
    hide IsRoundKey;
    hide ExpandedWord;
  }

  lemma Key12()
    ensures IsRoundKey(KEY, 12, K12)
  {
    Key10();
    Key11();
    EvenRoundKey(KEY, 12, K10, K11);
    RoundConstant(5);
    hide PowerOfX;
    hide IsRoundKey;
    hide ExpandedWord;
  }

  lemma Key13()
    ensures IsRoundKey(KEY, 13, K13)
  {
    Key11();
    Key12();
    OddRoundKey(KEY, 13, K11, K12);
    hide IsRoundKey;
    hide ExpandedWord;
  }

  lemma Key14()
    ensures IsRoundKey(KEY, 14, K14)
  {
    Key12();
    Key13();
    EvenRoundKey(KEY, 14, K12, K13);
    RoundConstant(6);
    hide PowerOfX;
    hide IsRoundKey;
    hide ExpandedWord;
  }

  // The state after the next round.
  lemma NextState(round: nat, s: Block, k: Block)
    requires 1 <= round < ROUNDS && CipherState(ExpandedKey(KEY), BLOCK, round - 1) == s && IsRoundKey(KEY, round, k)
    ensures CipherState(ExpandedKey(KEY), BLOCK, round) == RoundOf(s, k)
  {
    RoundKeyIs(KEY, round, k);
    RoundColumns(s, k);
    hide ExpandedKey;
    hide RoundKey;
    hide IsRoundKey;
    hide RoundOf;
    hide XorBlock;
    hide MixColumns;
    hide ShiftRows;
    hide SubBytes;
  }

  lemma State0()
    ensures CipherState(ExpandedKey(KEY), BLOCK, 0) == S0
  {
    Key0();
    RoundKeyIs(KEY, 0, K0);
    hide ExpandedKey;
    hide RoundKey;
    hide IsRoundKey;
  }

  lemma Round1()
    ensures RoundOf(S0, K1) == S1
  {
  }

  lemma State1()
    ensures CipherState(ExpandedKey(KEY), BLOCK, 1) == S1
  {
    State0();
    Key1();
    hide CipherState;
    hide ExpandedKey;
    hide IsRoundKey;
    hide RoundOf;
    NextState(1, S0, K1);
    Round1();
  }

  lemma Round2()
    ensures RoundOf(S1, K2) == S2
  {
  }

  lemma State2()
    ensures CipherState(ExpandedKey(KEY), BLOCK, 2) == S2
  {
    State1();
    Key2();
    hide CipherState;
    hide ExpandedKey;
    hide IsRoundKey;
    hide RoundOf;
    NextState(2, S1, K2);
    Round2();
  }

  lemma Round3()
    ensures RoundOf(S2, K3) == S3
  {
  }

  lemma State3()
    ensures CipherState(ExpandedKey(KEY), BLOCK, 3) == S3
  {
    State2();
    Key3();
    hide CipherState;
    hide ExpandedKey;
    hide IsRoundKey;
    hide RoundOf;
    NextState(3, S2, K3);
    Round3();
  }

  lemma Round4()
    ensures RoundOf(S3, K4) == S4
  {
  }

  lemma State4()
    ensures CipherState(ExpandedKey(KEY), BLOCK, 4) == S4
  {
    State3();
    Key4();
    hide CipherState;
    hide ExpandedKey;
    hide IsRoundKey;
    hide RoundOf;
    NextState(4, S3, K4);
    Round4();
  }

  lemma Round5()
    ensures RoundOf(S4, K5) == S5
  {
  }

  lemma State5()
    ensures CipherState(ExpandedKey(KEY), BLOCK, 5) == S5
  {
    State4();
    Key5();
    hide CipherState;
    hide ExpandedKey;
    hide IsRoundKey;
    hide RoundOf;
    NextState(5, S4, K5);
    Round5();
  }

  lemma Round6()
    ensures RoundOf(S5, K6) == S6
  {
  }

  lemma State6()
    ensures CipherState(ExpandedKey(KEY), BLOCK, 6) == S6
  {
    State5();
    Key6();
    hide CipherState;
    hide ExpandedKey;
    hide IsRoundKey;
    hide RoundOf;
    NextState(6, S5, K6);
    Round6();
  }

  lemma Round7()
    ensures RoundOf(S6, K7) == S7
  {
  }

  lemma State7()
    ensures CipherState(ExpandedKey(KEY), BLOCK, 7) == S7
  {
    State6();
    Key7();
    hide CipherState;
    hide ExpandedKey;
    hide IsRoundKey;
    hide RoundOf;
    NextState(7, S6, K7);
    Round7();
  }

  lemma Round8()
    ensures RoundOf(S7, K8) == S8
  {
  }

  lemma State8()
    ensures CipherState(ExpandedKey(KEY), BLOCK, 8) == S8
  {
    State7();
    Key8();
    hide CipherState;
    hide ExpandedKey;
    hide IsRoundKey;
    hide RoundOf;
    NextState(8, S7, K8);
    Round8();
  }

  lemma Round9()
    ensures RoundOf(S8, K9) == S9
  {
  }

  lemma State9()
    ensures CipherState(ExpandedKey(KEY), BLOCK, 9) == S9
  {
    State8();
    Key9();
    hide CipherState;
    hide ExpandedKey;
    hide IsRoundKey;
    hide RoundOf;
    NextState(9, S8, K9);
    Round9();
  }

  lemma Round10()
    ensures RoundOf(S9, K10) == S10
  {
  }

  lemma State10()
    ensures CipherState(ExpandedKey(KEY), BLOCK, 10) == S10
  {
    State9();
    Key10();
    hide CipherState;
    hide ExpandedKey;
    hide IsRoundKey;
    hide RoundOf;
    NextState(10, S9, K10);
    Round10();
  }

  lemma Round11()
    ensures RoundOf(S10, K11) == S11
  {
  }

  lemma State11()
    ensures CipherState(ExpandedKey(KEY), BLOCK, 11) == S11
  {
    State10();
    Key11();
    hide CipherState;
    hide ExpandedKey;
    hide IsRoundKey;
    hide RoundOf;
    NextState(11, S10, K11);
    Round11();
  }

  lemma Round12()
    ensures RoundOf(S11, K12) == S12
  {
  }

  lemma State12()
    ensures CipherState(ExpandedKey(KEY), BLOCK, 12) == S12
  {
    State11();
    Key12();
    hide CipherState;
    hide ExpandedKey;
    hide IsRoundKey;
    hide RoundOf;
    NextState(12, S11, K12);
    Round12();
  }

  lemma Round13()
    ensures RoundOf(S12, K13) == S13
  {
  }

  lemma State13()
    ensures CipherState(ExpandedKey(KEY), BLOCK, 13) == S13
  {
    State12();
    Key13();
    hide CipherState;
    hide ExpandedKey;
    hide IsRoundKey;
    hide RoundOf;
    NextState(13, S12, K13);
    Round13();
  }

  lemma Round14()
    ensures LastRoundOf(S13, K14) == RESULT
  {
  }

  lemma AppendixC3()
    ensures Cipher(ExpandedKey(KEY), BLOCK) == RESULT
    ensures InvCipher(ExpandedKey(KEY), RESULT) == BLOCK
  {
    State13();
    Key14();
    RoundKeyIs(KEY, 14, K14);
    LastRoundColumns(S13, K14);
    Round14();
    hide LastRoundOf;
    hide CipherState;
    hide ExpandedKey;
    hide IsRoundKey;
    hide RoundKey;
    hide XorBlock;
    hide ShiftRows;
    hide SubBytes;
    InvCipherOfCipher(ExpandedKey(KEY), BLOCK);
    hide InvCipher;
  }
}
