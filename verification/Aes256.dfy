// The cipher of unverified_aes256.cc: AES-256 (FIPS 197) on blocks that lie in a
// larger buffer. These functions follow FIPS 197; AesInPlace holds the source's
// methods, which overwrite the buffer and compute these functions.
module Aes256 {
  import opened Gf256
  import opened SBoxTables
  import opened Columns

  const ROUNDS := 14

  type Block = s: seq<bv8> | |s| == 16 witness seq(16, _ => 0)

  // The key schedule: 15 round keys of 16 bytes.
  type Schedule = s: seq<bv8> | |s| == 240 witness seq(240, _ => 0)

  // ---- FIPS 197, section 5: the state is a block, byte r + 4c in row r and column c.

  // Adds a round key to the state, or chains one block to another.
  function XorBlock(b: Block, k: Block): Block {
    seq(16, i requires 0 <= i < 16 => Xor(b[i], k[i]))
  }

  function SubBytes(b: Block): Block {
    seq(16, i requires 0 <= i < 16 => SBox(b[i]))
  }

  function InvSubBytes(b: Block): Block {
    seq(16, i requires 0 <= i < 16 => InvSBox(b[i]))
  }

  // Row r moves r columns to the left.
  function ShiftRows(b: Block): Block {
    seq(16, i requires 0 <= i < 16 => b[(i + 4 * (i % 4)) % 16])
  }

  // Row r moves r columns to the right.
  function InvShiftRows(b: Block): Block {
    seq(16, i requires 0 <= i < 16 => b[(i + 12 * (i % 4)) % 16])
  }

  function ColumnAt(b: Block, c: nat): Column
    requires c < 4
  {
    b[4 * c..4 * c + 4]
  }

  function MixColumns(b: Block): Block {
    seq(16, i requires 0 <= i < 16 => MixColumn(ColumnAt(b, i / 4))[i % 4])
  }

  function InvMixColumns(b: Block): Block {
    seq(16, i requires 0 <= i < 16 => InvMixColumn(ColumnAt(b, i / 4))[i % 4])
  }

  function RoundKey(w: Schedule, round: nat): Block
    requires round <= ROUNDS
  {
    w[16 * round..16 * round + 16]
  }

  // The state after `round` of the rounds that mix columns (section 5.1).
  function CipherState(w: Schedule, b: Block, round: nat): Block
    requires round < ROUNDS
  {
    if round == 0 then
      XorBlock(b, RoundKey(w, 0))
    else
      XorBlock(MixColumns(ShiftRows(SubBytes(CipherState(w, b, round - 1)))), RoundKey(w, round))
  }

  function Cipher(w: Schedule, b: Block): Block {
    XorBlock(ShiftRows(SubBytes(CipherState(w, b, ROUNDS - 1))), RoundKey(w, ROUNDS))
  }

  // The state before round key `round - 1` is added back (section 5.3).
  function InvCipherState(w: Schedule, b: Block, round: nat): Block
    requires 1 <= round <= ROUNDS
    decreases ROUNDS - round
  {
    if round == ROUNDS then
      InvSubBytes(InvShiftRows(XorBlock(b, RoundKey(w, ROUNDS))))
    else
      InvSubBytes(InvShiftRows(InvMixColumns(XorBlock(InvCipherState(w, b, round + 1), RoundKey(w, round)))))
  }

  function InvCipher(w: Schedule, b: Block): Block {
    XorBlock(InvCipherState(w, b, 1), RoundKey(w, 0))
  }

  // ---- Every layer is undone by its counterpart.

  lemma XorTwice(a: bv8, k: bv8)
    ensures Xor(Xor(a, k), k) == a
  {
    hide Xor;
    XorAssoc(a, k, k);
    XorZero(k);
    XorZero(a);
  }

  lemma XorBlockInverse(b: Block, k: Block)
    ensures XorBlock(XorBlock(b, k), k) == b
  {
    hide Xor;
    forall i | 0 <= i < 16 ensures XorBlock(XorBlock(b, k), k)[i] == b[i] {
      XorTwice(b[i], k[i]);
    }
  }

  lemma SubBytesInverse(b: Block)
    ensures InvSubBytes(SubBytes(b)) == b
    ensures SubBytes(InvSubBytes(b)) == b
  {
    hide SBox;
    hide InvSBox;
    forall i | 0 <= i < 16
      ensures InvSubBytes(SubBytes(b))[i] == b[i]
      ensures SubBytes(InvSubBytes(b))[i] == b[i]
    {
      SBoxInverse(b[i]);
      InvSBoxInverse(b[i]);
    }
  }

  lemma ShiftIndex(i: nat)
    requires i < 16
    ensures (i + 4 * (i % 4)) % 16 == if i + 4 * (i % 4) < 16 then i + 4 * (i % 4) else i + 4 * (i % 4) - 16
    ensures (i + 12 * (i % 4)) % 16 == if i < 4 * (i % 4) then i - 4 * (i % 4) + 16 else i - 4 * (i % 4)
    ensures (i + 4 * (i % 4)) % 16 % 4 == i % 4
    ensures (i + 12 * (i % 4)) % 16 % 4 == i % 4
  {
    var r := i % 4;
    assert r == 0 || r == 1 || r == 2 || r == 3;
  }

  lemma ShiftRowsInverse(b: Block)
    ensures InvShiftRows(ShiftRows(b)) == b
    ensures ShiftRows(InvShiftRows(b)) == b
  {
    forall i | 0 <= i < 16
      ensures InvShiftRows(ShiftRows(b))[i] == b[i]
      ensures ShiftRows(InvShiftRows(b))[i] == b[i]
    {
      ShiftIndex(i);
      ShiftIndex((i + 4 * (i % 4)) % 16);
      ShiftIndex((i + 12 * (i % 4)) % 16);
    }
  }

  lemma ColumnOfMixColumns(b: Block, c: nat)
    requires c < 4
    ensures ColumnAt(MixColumns(b), c) == MixColumn(ColumnAt(b, c))
    ensures ColumnAt(InvMixColumns(b), c) == InvMixColumn(ColumnAt(b, c))
  {
    hide MixColumn;
    hide InvMixColumn;
    forall r | 0 <= r < 4
      ensures ColumnAt(MixColumns(b), c)[r] == MixColumn(ColumnAt(b, c))[r]
      ensures ColumnAt(InvMixColumns(b), c)[r] == InvMixColumn(ColumnAt(b, c))[r]
    {
      assert (4 * c + r) / 4 == c && (4 * c + r) % 4 == r;
    }
  }

  lemma MixColumnsInverse(b: Block)
    ensures InvMixColumns(MixColumns(b)) == b
    ensures MixColumns(InvMixColumns(b)) == b
  {
    hide MixColumn;
    hide InvMixColumn;
    forall i | 0 <= i < 16
      ensures InvMixColumns(MixColumns(b))[i] == b[i]
      ensures MixColumns(InvMixColumns(b))[i] == b[i]
    {
      ColumnOfMixColumns(b, i / 4);
      InvMixOfMix(ColumnAt(b, i / 4));
      MixOfInvMix(ColumnAt(b, i / 4));
      assert ColumnAt(b, i / 4)[i % 4] == b[i];
    }
  }

  // Going down the rounds of the inverse meets the states of the cipher on the way.
  lemma {:induction false} InvCipherMeetsCipher(w: Schedule, b: Block, round: nat)
    requires 1 <= round <= ROUNDS
    ensures InvCipherState(w, Cipher(w, b), round) == CipherState(w, b, round - 1)
    decreases ROUNDS - round
  {
    hide XorBlock;
    hide SubBytes;
    hide InvSubBytes;
    hide ShiftRows;
    hide InvShiftRows;
    hide MixColumns;
    hide InvMixColumns;
    var before := CipherState(w, b, round - 1);
    SubBytesInverse(before);
    ShiftRowsInverse(SubBytes(before));
    var shifted := ShiftRows(SubBytes(before));
    if round == ROUNDS {
      XorBlockInverse(shifted, RoundKey(w, ROUNDS));
    } else {
      InvCipherMeetsCipher(w, b, round + 1);
      MixColumnsInverse(shifted);
      XorBlockInverse(MixColumns(shifted), RoundKey(w, round));
    }
  }

  // For any 240-byte schedule, decryption undoes encryption.
  lemma InvCipherOfCipher(w: Schedule, b: Block)
    ensures InvCipher(w, Cipher(w, b)) == b
  {
    InvCipherMeetsCipher(w, b, 1);
    XorBlockInverse(b, RoundKey(w, 0));
  }

  lemma {:induction false} CipherMeetsInvCipher(w: Schedule, b: Block, round: nat)
    requires round < ROUNDS
    ensures CipherState(w, InvCipher(w, b), round) == InvCipherState(w, b, round + 1)
  {
    hide XorBlock;
    hide SubBytes;
    hide InvSubBytes;
    hide ShiftRows;
    hide InvShiftRows;
    hide MixColumns;
    hide InvMixColumns;
    if round == 0 {
      XorBlockInverse(InvCipherState(w, b, 1), RoundKey(w, 0));
    } else {
      CipherMeetsInvCipher(w, b, round - 1);
      var above := InvCipherState(w, b, round + 1);
      var unkeyed := XorBlock(above, RoundKey(w, round));
      var unmixed := InvMixColumns(unkeyed);
      SubBytesInverse(InvShiftRows(unmixed));
      ShiftRowsInverse(unmixed);
      MixColumnsInverse(unkeyed);
      XorBlockInverse(above, RoundKey(w, round));
    }
  }

  // And encryption undoes decryption.
  lemma CipherOfInvCipher(w: Schedule, b: Block)
    ensures Cipher(w, InvCipher(w, b)) == b
  {
    hide XorBlock;
    hide SubBytes;
    hide InvSubBytes;
    hide ShiftRows;
    hide InvShiftRows;
    CipherMeetsInvCipher(w, b, ROUNDS - 1);
    var unkeyed := XorBlock(b, RoundKey(w, ROUNDS));
    SubBytesInverse(InvShiftRows(unkeyed));
    ShiftRowsInverse(unkeyed);
    XorBlockInverse(b, RoundKey(w, ROUNDS));
  }
}
