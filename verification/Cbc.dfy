// Cipher block chaining (section 6.2 of NIST SP 800-38A) over a whole buffer,
// and the source's loops, which run it in place.
module Cbc {
  import opened Aes256
  import opened KeySchedule
  import opened AesInPlace

  function Head(p: seq<bv8>): Block
    requires 16 <= |p|
  {
    p[..16]
  }

  function Encrypted(w: Schedule, vec: Block, p: seq<bv8>): (c: seq<bv8>)
    requires |p| % 16 == 0
    ensures |c| == |p|
    decreases |p|
  {
    if p == [] then []
    else
      var first := Cipher(w, XorBlock(Head(p), vec));
      first + Encrypted(w, first, p[16..])
  }

  function Decrypted(w: Schedule, prev: Block, c: seq<bv8>): (p: seq<bv8>)
    requires |c| % 16 == 0
    ensures |p| == |c|
    decreases |c|
  {
    if c == [] then []
    else XorBlock(InvCipher(w, Head(c)), prev) + Decrypted(w, Head(c), c[16..])
  }

  lemma {:induction false} DecryptedOfEncrypted(w: Schedule, vec: Block, p: seq<bv8>)
    requires |p| % 16 == 0
    ensures Decrypted(w, vec, Encrypted(w, vec, p)) == p
    decreases |p|
  {
    hide Cipher;
    hide InvCipher;
    hide XorBlock;
    if p != [] {
      var first := Cipher(w, XorBlock(Head(p), vec));
      var c := Encrypted(w, vec, p);
      assert Head(c) == first && c[16..] == Encrypted(w, first, p[16..]);
      InvCipherOfCipher(w, XorBlock(Head(p), vec));
      XorBlockInverse(Head(p), vec);
      DecryptedOfEncrypted(w, first, p[16..]);
    }
  }

  lemma {:induction false} EncryptedOfDecrypted(w: Schedule, prev: Block, c: seq<bv8>)
    requires |c| % 16 == 0
    ensures Encrypted(w, prev, Decrypted(w, prev, c)) == c
    decreases |c|
  {
    hide Cipher;
    hide InvCipher;
    hide XorBlock;
    if c != [] {
      var first := XorBlock(InvCipher(w, Head(c)), prev);
      var p := Decrypted(w, prev, c);
      assert Head(p) == first && p[16..] == Decrypted(w, Head(c), c[16..]);
      XorBlockInverse(InvCipher(w, Head(c)), prev);
      CipherOfInvCipher(w, Head(c));
      EncryptedOfDecrypted(w, Head(c), c[16..]);
    }
  }

  function BlockAt(s: seq<bv8>, i: nat): Block
    requires 16 * i + 16 <= |s|
  {
    s[16 * i..16 * i + 16]
  }

  // Each block is combined with the block of ciphertext before it, the first one with
  // the vector, and then enciphered.
  lemma {:induction false} EncryptedBlock(w: Schedule, vec: Block, p: seq<bv8>, i: nat)
    requires |p| % 16 == 0 && 16 * i + 16 <= |p|
    ensures var c := Encrypted(w, vec, p);
            BlockAt(c, i) == Cipher(w, XorBlock(BlockAt(p, i), if i == 0 then vec else BlockAt(c, i - 1)))
    decreases |p|
  {
    hide Cipher;
    hide XorBlock;
    var first := Cipher(w, XorBlock(Head(p), vec));
    var c, rest := Encrypted(w, vec, p), Encrypted(w, first, p[16..]);
    assert c == first + rest;
    hide Encrypted;
    assert BlockAt(c, 0) == first;
    if i > 0 {
      EncryptedBlock(w, first, p[16..], i - 1);
      assert BlockAt(c, i) == BlockAt(rest, i - 1) && BlockAt(p, i) == BlockAt(p[16..], i - 1);
      assert i > 1 ==> BlockAt(c, i - 1) == BlockAt(rest, i - 2);
    }
  }

  // Each block is deciphered, and then combined with the block of ciphertext before it.
  lemma {:induction false} DecryptedBlock(w: Schedule, vec: Block, c: seq<bv8>, i: nat)
    requires |c| % 16 == 0 && 16 * i + 16 <= |c|
    ensures BlockAt(Decrypted(w, vec, c), i) ==
            XorBlock(InvCipher(w, BlockAt(c, i)), if i == 0 then vec else BlockAt(c, i - 1))
    decreases |c|
  {
    hide InvCipher;
    hide XorBlock;
    var first := XorBlock(InvCipher(w, Head(c)), vec);
    var p, rest := Decrypted(w, vec, c), Decrypted(w, Head(c), c[16..]);
    assert p == first + rest;
    hide Decrypted;
    assert BlockAt(p, 0) == first;
    if i > 0 {
      DecryptedBlock(w, Head(c), c[16..], i - 1);
      assert BlockAt(p, i) == BlockAt(rest, i - 1) && BlockAt(c, i) == BlockAt(c[16..], i - 1);
      assert i > 1 ==> BlockAt(c, i - 1) == BlockAt(c[16..], i - 2);
    }
  }

  method XorInto(block: array<bv8>, at: nat, vec: array<bv8>)
    requires at + 16 <= block.Length && vec.Length == 16 && block != vec
    modifies block
    ensures block[..] == Spliced(old(block[..]), at, XorBlock(old(block[at..at + 16]), vec[..]))
  {
    AddRoundKey(block, at, vec, 0);
    assert vec[0..16] == vec[..];
  }

  method CopyOut(block: array<bv8>, at: nat, vec: array<bv8>)
    requires at + 16 <= block.Length && vec.Length == 16 && block != vec
    modifies vec
    ensures vec[..] == block[at..at + 16]
  {
    for j := 0 to 16
      invariant forall k :: 0 <= k < j ==> vec[k] == block[at + k]
    {
      vec[j] := block[at + j];
    }
  }

  // What the loops know before each block: the buffer `now` was `s`, its bytes
  // from `at` on are untouched, and `whole` is what is done with what is to do.
  ghost predicate Pending(now: seq<bv8>, s: seq<bv8>, at: nat, n: nat) {
    |now| == |s| && at <= n <= |s| && (n - at) % 16 == 0 && now[at..] == s[at..]
  }

  lemma NextBlock(now: seq<bv8>, s: seq<bv8>, at: nat, n: nat, piece: Block)
    requires Pending(now, s, at, n) && at < n
    ensures at + 16 <= n
    ensures |s[at..n]| % 16 == 0 && 16 <= |s[at..n]|
    ensures now[at..at + 16] == Head(s[at..n])
    ensures s[at..n][16..] == s[at + 16..n]
    ensures var after := Spliced(now, at, piece);
            && Pending(after, s, at + 16, n)
            && after[at..at + 16] == piece
            && after[..at + 16] == now[..at] + piece
  {
    assert now[at..at + 16] == now[at..][..16];
    assert s[at..n][..16] == s[at..][..16];
    assert now[at + 16..] == now[at..][16..];
    assert s[at + 16..] == s[at..][16..];
    assert Spliced(now, at, piece)[at + 16..] == now[at + 16..];
  }

  lemma EncryptedNext(w: Schedule, vec: Block, now: seq<bv8>, s: seq<bv8>, at: nat, n: nat, whole: seq<bv8>)
    requires Pending(now, s, at, n) && at < n
    requires whole == now[..at] + Encrypted(w, vec, s[at..n])
    ensures 16 <= |s[at..n]|
    ensures var first := Cipher(w, XorBlock(Head(s[at..n]), vec));
            var after := Spliced(now, at, first);
            && at + 16 <= n
            && now[at..at + 16] == Head(s[at..n])
            && after[at..at + 16] == first
            && Pending(after, s, at + 16, n)
            && whole == after[..at + 16] + Encrypted(w, first, s[at + 16..n])
  {
    hide Cipher;
    hide XorBlock;
    hide Spliced;
    hide Head;
    NextBlock(now, s, at, n, now[at..at + 16]);
    var first := Cipher(w, XorBlock(Head(s[at..n]), vec));
    NextBlock(now, s, at, n, first);
    assert now[..at] + (first + Encrypted(w, first, s[at + 16..n])) == (now[..at] + first) + Encrypted(w, first, s[at + 16..n]);
  }

  lemma DecryptedNext(w: Schedule, prev: Block, now: seq<bv8>, s: seq<bv8>, at: nat, n: nat, whole: seq<bv8>)
    requires Pending(now, s, at, n) && at < n
    requires whole == now[..at] + Decrypted(w, prev, s[at..n])
    ensures 16 <= |s[at..n]|
    ensures var original := Head(s[at..n]);
            var first := XorBlock(InvCipher(w, original), prev);
            var after := Spliced(now, at, first);
            && at + 16 <= n
            && now[at..at + 16] == original
            && Pending(after, s, at + 16, n)
            && whole == after[..at + 16] + Decrypted(w, original, s[at + 16..n])
  {
    hide InvCipher;
    hide XorBlock;
    hide Spliced;
    hide Head;
    NextBlock(now, s, at, n, now[at..at + 16]);
    var original := Head(s[at..n]);
    var first := XorBlock(InvCipher(w, original), prev);
    NextBlock(now, s, at, n, first);
    assert now[..at] + (first + Decrypted(w, original, s[at + 16..n])) == (now[..at] + first) + Decrypted(w, original, s[at + 16..n]);
  }

  lemma EndOfBuffer(now: seq<bv8>, s: seq<bv8>, n: nat, whole: seq<bv8>)
    requires Pending(now, s, n, n)
    requires |whole| == n && whole == now[..n] + []
    ensures now == Spliced(s, 0, whole)
  {
    assert now == now[..n] + now[n..];
  }

  // TransformCBC of the source, on the first blockCount blocks of the buffer.
  method TransformCBC(key: array<bv8>, iv: array<bv8>, block: array<bv8>, blockCount: nat)
    requires key.Length == 32 && iv.Length == 16 && 16 * blockCount <= block.Length
    requires block != key && block != iv
    modifies block
    ensures block[..] == Spliced(old(block[..]), 0, Encrypted(ExpandedKey(key[..]), iv[..], old(block[..16 * blockCount])))
  {
    hide Cipher;
    hide XorBlock;
    hide Spliced;
    hide ExpandedKey;
    hide Encrypted;
    hide Head;
    var w := new bv8[240];
    MakeKeySchedule(key, w);
    var vec := new bv8[16];
    CopyOut(iv, 0, vec);
    ghost var s, k, n := block[..], w[..], 16 * blockCount;
    ghost var whole := Encrypted(k, iv[..], s[..n]);
    assert iv[0..16] == iv[..] && s[0..n] == s[..n];
    for i := 0 to blockCount
      invariant w[..] == k
      invariant Pending(block[..], s, 16 * i, n)
      invariant whole == block[..16 * i] + Encrypted(k, vec[..], s[16 * i..n])
    {
      var src := 16 * i;
      ghost var now := block[..];
      EncryptedNext(k, vec[..], now, s, src, n, whole);
      ghost var chained := XorBlock(Head(s[src..n]), vec[..]);
      XorInto(block, src, vec);
      Chain(now, src, chained, Cipher(k, chained));
      TransformECB(w, block, src);
      CopyOut(block, src, vec);
    }
    EndOfBuffer(block[..], s, n, whole);
  }

  // InverseTransformCBC of the source.
  method InverseTransformCBC(key: array<bv8>, iv: array<bv8>, block: array<bv8>, blockCount: nat)
    requires key.Length == 32 && iv.Length == 16 && 16 * blockCount <= block.Length
    requires block != key && block != iv
    modifies block
    ensures block[..] == Spliced(old(block[..]), 0, Decrypted(ExpandedKey(key[..]), iv[..], old(block[..16 * blockCount])))
  {
    hide InvCipher;
    hide XorBlock;
    hide Spliced;
    hide ExpandedKey;
    hide Decrypted;
    hide Head;
    var w := new bv8[240];
    MakeKeySchedule(key, w);
    var prevBlock := new bv8[16];
    CopyOut(iv, 0, prevBlock);
    ghost var s, k, n := block[..], w[..], 16 * blockCount;
    ghost var whole := Decrypted(k, iv[..], s[..n]);
    assert iv[0..16] == iv[..] && s[0..n] == s[..n];
    for i := 0 to blockCount
      invariant w[..] == k
      invariant Pending(block[..], s, 16 * i, n)
      invariant whole == block[..16 * i] + Decrypted(k, prevBlock[..], s[16 * i..n])
    {
      var original := new bv8[16];
      var current := 16 * i;
      ghost var now := block[..];
      DecryptedNext(k, prevBlock[..], now, s, current, n, whole);
      CopyOut(block, current, original);
      ghost var plain := InvCipher(k, Head(s[current..n]));
      InverseTransformECB(w, block, current);
      Chain(now, current, plain, XorBlock(plain, prevBlock[..]));
      XorInto(block, current, prevBlock);
      assert original[0..16] == original[..];
      CopyOut(original, 0, prevBlock);
    }
    EndOfBuffer(block[..], s, n, whole);
  }
}
