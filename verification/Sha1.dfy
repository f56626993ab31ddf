// SHA-1 (FIPS 180-4) as unverified_sha1.cc computes it. The functions follow the
// standard; the iterator and the digest loop follow the source.
module Sha1 {
  import opened ByteOrder

  const ROUNDS := 80

  // Messages the padding can express: fewer than 2^64 bits.
  const MESSAGE_LIMIT := 0x2000_0000_0000_0000

  type Message = s: seq<bv8> | |s| < MESSAGE_LIMIT

  type MessageBlock = s: seq<bv8> | |s| == 64 witness seq(64, _ => 0)

  // ---- Section 5.1.1: padding.

  function Zeros(n: nat): seq<bv8> {
    seq(n, _ => 0)
  }

  // The smallest k with |m| + 1 + k = 56 modulo 64.
  function ZeroCount(n: nat): (k: nat)
    ensures (n + 1 + k) % 64 == 56
    ensures k < 64
  {
    (119 - n % 64) % 64
  }

  function BitLength(m: Message): bv64 {
    (8 * |m|) as bv64
  }

  function Padded(m: Message): seq<bv8> {
    m + [0x80] + Zeros(ZeroCount(|m|)) + Store64(Big, BitLength(m))
  }

  function BlockCount(m: Message): nat {
    |Padded(m)| / 64
  }

  lemma PaddedLength(m: Message)
    ensures |Padded(m)| == |m| + 9 + ZeroCount(|m|)
    ensures |Padded(m)| == 64 * BlockCount(m)
  {
    hide Store64;
    hide BitLength;
  }

  function BlockOf(m: Message, i: nat): MessageBlock
    requires i < BlockCount(m)
  {
    PaddedLength(m);
    Padded(m)[64 * i..64 * i + 64]
  }

  function BlocksTo(m: Message, n: nat): seq<bv8>
    requires n <= BlockCount(m)
  {
    if n == 0 then [] else BlocksTo(m, n - 1) + BlockOf(m, n - 1)
  }

  // The blocks in order are the padded message.
  lemma {:induction false} BlocksArePrefix(m: Message, n: nat)
    requires n <= BlockCount(m)
    ensures 64 * n <= |Padded(m)|
    ensures BlocksTo(m, n) == Padded(m)[..64 * n]
  {
    hide Padded;
    PaddedLength(m);
    if n > 0 {
      BlocksArePrefix(m, n - 1);
    }
  }

  lemma BlocksAreMessage(m: Message)
    ensures BlocksTo(m, BlockCount(m)) == Padded(m)
  {
    PaddedLength(m);
    BlocksArePrefix(m, BlockCount(m));
  }

  // GetTotalMessageCount of the source.
  function GetTotalMessageCount(size: nat): nat {
    (size + 1 + 8 + 64 - 1) / 64
  }

  lemma TotalMessageCount(m: Message)
    ensures GetTotalMessageCount(|m|) == BlockCount(m)
  {
    PaddedLength(m);
  }

  // What lies at index j of the padded message.
  function PaddedByte(m: Message, j: nat): bv8
    requires j < |m| + 9 + ZeroCount(|m|)
  {
    if j < |m| then m[j]
    else if j == |m| then 0x80
    else if j <= |m| + ZeroCount(|m|) then 0
    else Store64(Big, BitLength(m))[j - |m| - 1 - ZeroCount(|m|)]
  }

  lemma PaddedAt(m: Message, j: nat)
    requires j < |Padded(m)|
    ensures |Padded(m)| == |m| + 9 + ZeroCount(|m|)
    ensures Padded(m)[j] == PaddedByte(m, j)
  {
    hide Store64;
    hide BitLength;
    PaddedLength(m);
  }

  // The first n bytes of the block that starts at index `base` are in place.
  ghost predicate FilledTo(dest: seq<bv8>, m: Message, base: nat, n: nat) {
    n <= |dest| && base + n <= |m| + 9 + ZeroCount(|m|) && forall k :: 0 <= k < n ==> dest[k] == PaddedByte(m, base + k)
  }

  lemma FilledNone(dest: seq<bv8>, m: Message, base: nat)
    requires base <= |m| + 9 + ZeroCount(|m|)
    ensures FilledTo(dest, m, base, 0)
  {
  }

  lemma FilledNext(dest: seq<bv8>, m: Message, base: nat, n: nat, v: bv8)
    requires FilledTo(dest, m, base, n) && n < |dest| && base + n < |m| + 9 + ZeroCount(|m|)
    requires v == PaddedByte(m, base + n)
    ensures FilledTo(dest[n := v], m, base, n + 1)
  {
    hide PaddedByte;
  }

  lemma FilledBlock(dest: seq<bv8>, m: Message, i: nat)
    requires i < BlockCount(m) && |dest| == 64 && FilledTo(dest, m, 64 * i, 64)
    ensures dest == BlockOf(m, i)
  {
    hide Store64;
    hide BitLength;
    hide PaddedByte;
    hide Padded;
    PaddedLength(m);
    forall k | 0 <= k < 64 ensures dest[k] == BlockOf(m, i)[k] {
      PaddedAt(m, 64 * i + k);
    }
  }

  // Past the end of the data, a block is the last one exactly if it has room for the length.
  lemma LastBlock(m: Message, i: nat)
    requires i < BlockCount(m) && |m| < 64 * i + 64
    ensures |m| <= 64 * i + 55 ==> 64 * i + 64 == |m| + 9 + ZeroCount(|m|)
    ensures 64 * i + 56 <= |m| ==> 64 * i + 64 <= |m| + 1 + ZeroCount(|m|)
  {
    PaddedLength(m);
  }

  // PaddedMessageIterator of the source.
  class PaddedMessageIterator {
    const endian: Endian
    const source: Message
    const numTotalMessage: nat
    var messageIndex: nat

    ghost predicate Valid()
      reads this
    {
      numTotalMessage == BlockCount(source) && messageIndex <= numTotalMessage
    }

    constructor (endian: Endian, source: Message)
      ensures Valid() && this.endian == endian && this.source == source && messageIndex == 0
    {
      this.endian := endian;
      this.source := source;
      numTotalMessage := GetTotalMessageCount(|source|);
      messageIndex := 0;
      TotalMessageCount(source);
    }

    predicate HasMessage()
      reads this
    {
      messageIndex < numTotalMessage
    }

    method FillNextMessage(dest: array<bv8>)
      requires Valid() && HasMessage() && dest.Length == 64
      modifies dest
      ensures dest[..] == BlockOf(source, messageIndex)
    {
      hide Store64;
      hide BitLength;
      hide Padded;
      hide FilledTo;
      hide ZeroCount;
      hide BlockCount;
      hide BlockOf;
      var baseIndex := messageIndex * 64;
      var cursor := 0;
      PaddedLength(source);
      FilledNone(dest[..], source, baseIndex);
      if baseIndex < |source| {
        var rest := |source| - baseIndex;
        if rest >= 64 {
          for j := 0 to 64
            invariant FilledTo(dest[..], source, baseIndex, j)
          {
            FilledNext(dest[..], source, baseIndex, j, source[baseIndex + j]);
            dest[j] := source[baseIndex + j];
          }
          FilledBlock(dest[..], source, messageIndex);
          return;
        }
        for j := 0 to rest
          invariant FilledTo(dest[..], source, baseIndex, j)
        {
          FilledNext(dest[..], source, baseIndex, j, source[baseIndex + j]);
          dest[j] := source[baseIndex + j];
        }
        cursor := rest;
      }
      // Put the end-of-data marker.
      if baseIndex + cursor == |source| {
        FilledNext(dest[..], source, baseIndex, cursor, 0x80);
        dest[cursor] := 0x80;
        cursor := cursor + 1;
      }
      LastBlock(source, messageIndex);
      if cursor > 56 {
        for j := cursor to 64
          invariant FilledTo(dest[..], source, baseIndex, j)
        {
          FilledNext(dest[..], source, baseIndex, j, 0);
          dest[j] := 0;
        }
        FilledBlock(dest[..], source, messageIndex);
        return;
      }
      for j := cursor to 56
        invariant FilledTo(dest[..], source, baseIndex, j)
      {
        FilledNext(dest[..], source, baseIndex, j, 0);
        dest[j] := 0;
      }
      var bitLength := BitLength(source);
      var stored := Store64(endian, HostToNet64(endian, bitLength));
      Store64IsBigEndian(endian, bitLength);
      for j := 56 to 64
        invariant FilledTo(dest[..], source, baseIndex, j)
      {
        FilledNext(dest[..], source, baseIndex, j, stored[j - 56]);
        dest[j] := stored[j - 56];
      }
      FilledBlock(dest[..], source, messageIndex);
    }

    method MoveNext()
      requires Valid() && HasMessage()
      modifies this
      ensures Valid() && messageIndex == old(messageIndex) + 1
    {
      messageIndex := messageIndex + 1;
    }
  }

  // ---- Sections 4.1.1, 4.2.1 and 6.1.2: the hash.

  function Ch(x: bv32, y: bv32, z: bv32): bv32 {
    (x & y) ^ (!x & z)
  }

  function Parity(x: bv32, y: bv32, z: bv32): bv32 {
    x ^ y ^ z
  }

  function Maj(x: bv32, y: bv32, z: bv32): bv32 {
    (x & y) ^ (x & z) ^ (y & z)
  }

  function F(t: nat, x: bv32, y: bv32, z: bv32): bv32 {
    if t < 20 then Ch(x, y, z)
    else if t < 40 then Parity(x, y, z)
    else if t < 60 then Maj(x, y, z)
    else Parity(x, y, z)
  }

  function K(t: nat): bv32 {
    if t < 20 then 0x5a827999
    else if t < 40 then 0x6ed9eba1
    else if t < 60 then 0x8f1bbcdc
    else 0xca62c1d6
  }

  // The two definitions of the functions that the standard has had agree.
  lemma BothDefinitions(x: bv32, y: bv32, z: bv32)
    ensures Ch(x, y, z) == (x & y) | (!x & z)
    ensures Maj(x, y, z) == (x & y) | (x & z) | (y & z)
  {
  }

  // The constants are 2^30 times the square roots of 2, 3, 5 and 10, rounded down.
  lemma ConstantsAreRoots(t: nat)
    requires t < ROUNDS
    ensures var n := [2, 3, 5, 10][t / 20];
            var k := K(t) as int;
            k * k <= n * 0x1000_0000_0000_0000 < (k + 1) * (k + 1)
  {
    var n := t / 20;
    assert n == 0 || n == 1 || n == 2 || n == 3;
  }

  function Rotl1(x: bv32): bv32 {
    (x << 1) | (x >> 31)
  }

  function Rotl5(x: bv32): bv32 {
    (x << 5) | (x >> 27)
  }

  function Rotl30(x: bv32): bv32 {
    (x << 30) | (x >> 2)
  }

  datatype Hash = Hash(a: bv32, b: bv32, c: bv32, d: bv32, e: bv32)

  const INITIAL_HASH := Hash(0x67452301, 0xefcdab89, 0x98badcfe, 0x10325476, 0xc3d2e1f0)

  function Expanded(w3: bv32, w8: bv32, w14: bv32, w16: bv32): bv32 {
    Rotl1(w3 ^ w8 ^ w14 ^ w16)
  }

  // The message schedule, step 1.
  function ScheduleWord(block: MessageBlock, t: nat): bv32 {
    if t < 16 then Load32(Big, block[4 * t..4 * t + 4])
    else Expanded(ScheduleWord(block, t - 3), ScheduleWord(block, t - 8), ScheduleWord(block, t - 14), ScheduleWord(block, t - 16))
  }

  function RoundSum(t: nat, v: Hash, w: bv32): bv32 {
    Rotl5(v.a) + F(t, v.b, v.c, v.d) + v.e + w + K(t)
  }

  // The working variables after t of the 80 rounds, steps 2 and 3.
  function Worked(h: Hash, block: MessageBlock, t: nat): Hash {
    if t == 0 then h
    else
      var v := Worked(h, block, t - 1);
      Hash(RoundSum(t - 1, v, ScheduleWord(block, t - 1)), v.a, Rotl30(v.b), v.c, v.d)
  }

  // Addition modulo 2^32.
  function Sum(x: bv32, y: bv32): bv32 {
    x + y
  }

  // Step 4.
  function Compressed(h: Hash, block: MessageBlock): Hash {
    var v := Worked(h, block, ROUNDS);
    Hash(Sum(h.a, v.a), Sum(h.b, v.b), Sum(h.c, v.c), Sum(h.d, v.d), Sum(h.e, v.e))
  }

  // The hash value after the first n blocks.
  function HashOf(m: Message, n: nat): Hash
    requires n <= BlockCount(m)
  {
    if n == 0 then INITIAL_HASH else Compressed(HashOf(m, n - 1), BlockOf(m, n - 1))
  }

  function HashBytes(h: Hash): (s: seq<bv8>)
    ensures |s| == 20
  {
    Store32(Big, h.a) + Store32(Big, h.b) + Store32(Big, h.c) + Store32(Big, h.d) + Store32(Big, h.e)
  }

  function Digest(m: Message): (d: seq<bv8>)
    ensures |d| == 20
  {
    HashBytes(HashOf(m, BlockCount(m)))
  }

  // The hash of a sequence of blocks, taken from the front.
  function Folded(h: Hash, bytes: seq<bv8>): Hash
    requires |bytes| % 64 == 0
    decreases |bytes|
  {
    if bytes == [] then h else Folded(Compressed(h, bytes[..64]), bytes[64..])
  }

  lemma {:induction false} FoldedFrom(m: Message, n: nat)
    requires n <= BlockCount(m) && 64 * n <= |Padded(m)|
    ensures |Padded(m)[64 * n..]| % 64 == 0
    ensures Folded(HashOf(m, n), Padded(m)[64 * n..]) == HashOf(m, BlockCount(m))
    decreases BlockCount(m) - n
  {
    PaddedLength(m);
    hide Padded;
    hide Compressed;
    var rest := Padded(m)[64 * n..];
    if n < BlockCount(m) {
      FoldedFrom(m, n + 1);
      assert rest[..64] == BlockOf(m, n) && rest[64..] == Padded(m)[64 * (n + 1)..];
      assert HashOf(m, n + 1) == Compressed(HashOf(m, n), BlockOf(m, n));
    }
  }

  // The digest takes every block of the padded message, in order.
  lemma DigestIsFold(m: Message)
    ensures |Padded(m)| % 64 == 0 && Digest(m) == HashBytes(Folded(INITIAL_HASH, Padded(m)))
  {
    PaddedLength(m);
    FoldedFrom(m, 0);
    hide Padded;
    hide BlockCount;
    hide HashBytes;
    assert Padded(m)[0..] == Padded(m);
    assert HashOf(m, 0) == INITIAL_HASH;
  }

  lemma ScheduleWordStep(block: MessageBlock, t: nat)
    requires 16 <= t
    ensures ScheduleWord(block, t)
         == Expanded(ScheduleWord(block, t - 3), ScheduleWord(block, t - 8), ScheduleWord(block, t - 14), ScheduleWord(block, t - 16))
  {
  }

  lemma ScheduleWordStart(block: MessageBlock, t: nat)
    requires t < 16
    ensures ScheduleWord(block, t) == Load32(Big, block[4 * t..4 * t + 4])
  {
  }

  method FillSchedule(endian: Endian, message: array<bv8>, W: array<bv32>)
    requires message.Length == 64 && W.Length == 80
    modifies W
    ensures forall t :: 0 <= t < 80 ==> W[t] == ScheduleWord(message[..], t)
  {
    hide Expanded;
    hide Load32;
    hide HostToNet32;
    hide ScheduleWord;
    ghost var block := message[..];
    for i := 0 to 16
      invariant forall t :: 0 <= t < i ==> W[t] == ScheduleWord(block, t)
    {
      var baseIndex := i * 4;
      W[i] := HostToNet32(endian, Load32(endian, message[baseIndex..baseIndex + 4]));
      ScheduleWordStart(block, i);
      LoadIsBigEndian(endian, message[baseIndex..baseIndex + 4]);
      assert message[baseIndex..baseIndex + 4] == block[4 * i..4 * i + 4];
    }
    for t := 16 to 80
      invariant forall k :: 0 <= k < t ==> W[k] == ScheduleWord(block, k)
    {
      ScheduleWordStep(block, t);
      W[t] := Expanded(W[t - 3], W[t - 8], W[t - 14], W[t - 16]);
    }
  }

  // One block of MakeDigestImpl.
  method CompressBlock(W: array<bv32>, H: array<bv32>, ghost block: MessageBlock)
    requires W.Length == 80 && H.Length == 5 && W != H
    requires forall t :: 0 <= t < 80 ==> W[t] == ScheduleWord(block, t)
    modifies H
    ensures Hash(H[0], H[1], H[2], H[3], H[4]) == Compressed(old(Hash(H[0], H[1], H[2], H[3], H[4])), block)
  {
    hide RoundSum;
    hide Sum;
    hide Rotl30;
    hide ScheduleWord;
    var a, b, c, d, e := H[0], H[1], H[2], H[3], H[4];
    ghost var h := Hash(a, b, c, d, e);
    for t := 0 to ROUNDS
      invariant Hash(a, b, c, d, e) == Worked(h, block, t)
    {
      var T := RoundSum(t, Hash(a, b, c, d, e), W[t]);
      e := d;
      d := c;
      c := Rotl30(b);
      b := a;
      a := T;
    }
    H[0] := Sum(H[0], a);
    H[1] := Sum(H[1], b);
    H[2] := Sum(H[2], c);
    H[3] := Sum(H[3], d);
    H[4] := Sum(H[4], e);
  }

  function AsByteStream(endian: Endian, h: Hash): seq<bv8> {
    Store32(endian, HostToNet32(endian, h.a)) + Store32(endian, HostToNet32(endian, h.b)) +
    Store32(endian, HostToNet32(endian, h.c)) + Store32(endian, HostToNet32(endian, h.d)) +
    Store32(endian, HostToNet32(endian, h.e))
  }

  lemma AsByteStreamIsBigEndian(endian: Endian, h: Hash)
    ensures AsByteStream(endian, h) == HashBytes(h)
  {
    hide Store32;
    hide HostToNet32;
    StoreIsBigEndian(endian, h.a);
    StoreIsBigEndian(endian, h.b);
    StoreIsBigEndian(endian, h.c);
    StoreIsBigEndian(endian, h.d);
    StoreIsBigEndian(endian, h.e);
  }

  // MakeDigest of the source, on a host of either byte order.
  method MakeDigest(endian: Endian, source: Message) returns (digest: seq<bv8>)
    ensures digest == Digest(source)
  {
    hide Compressed;
    hide AsByteStream;
    hide HashBytes;
    hide ScheduleWord;
    hide BlockCount;
    hide BlockOf;
    hide Padded;
    var H := new bv32[5];
    H[0], H[1], H[2], H[3], H[4] := 0x67452301, 0xefcdab89, 0x98badcfe, 0x10325476, 0xc3d2e1f0;
    var it := new PaddedMessageIterator(endian, source);
    while it.HasMessage()
      invariant it.Valid() && it.endian == endian && it.source == source && fresh(it) && fresh(H)
      invariant H.Length == 5
      invariant Hash(H[0], H[1], H[2], H[3], H[4]) == HashOf(source, it.messageIndex)
      decreases it.numTotalMessage - it.messageIndex
    {
      var message := new bv8[64];
      it.FillNextMessage(message);
      var W := new bv32[80];
      FillSchedule(endian, message, W);
      CompressBlock(W, H, message[..]);
      it.MoveNext();
    }
    var h := Hash(H[0], H[1], H[2], H[3], H[4]);
    AsByteStreamIsBigEndian(endian, h);
    digest := AsByteStream(endian, h);
  }
}
