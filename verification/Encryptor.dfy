// The string and buffer encryption of encryptor.cc: block padding (section 6.3 of
// RFC 5652) around AES-256 in CBC mode, run in the caller's buffer.
module Encryptor {
  import opened Aes256
  import opened KeySchedule
  import opened AesInPlace
  import opened Options
  import opened ByteOrder
  import Cbc
  import Sha1

  const BLOCK_SIZE := 16

  // size_t arithmetic is modulo this.
  const SIZE_LIMIT := 0x1_0000_0000_0000_0000

  // No object, so no buffer, is larger than this.
  const MAX_BUFFER := 0x7fff_ffff_ffff_ffff

  // ---- What a message becomes.

  function PaddingSize(n: nat): (k: nat)
    ensures 1 <= k <= 16 && (n + k) % 16 == 0
  {
    16 - n % 16
  }

  function Padding(k: nat): seq<bv8>
    requires k <= 16
  {
    seq(k, _ => k as bv8)
  }

  function Padded(m: seq<bv8>): (p: seq<bv8>)
    ensures |p| % 16 == 0
  {
    m + Padding(PaddingSize(|m|))
  }

  // The message inside a padded one, if the padding is as it should be and
  // there is a message at all.
  function Unpadded(p: seq<bv8>): Option<seq<bv8>>
    requires p != []
  {
    var k := p[|p| - 1] as nat;
    if k == 0 || 16 < k || |p| <= k || p[|p| - k..] != Padding(k) then None else Some(p[..|p| - k])
  }

  function Enciphered(key: KeySchedule.Key, iv: Block, m: seq<bv8>): seq<bv8> {
    Cbc.Encrypted(ExpandedKey(key), iv, Padded(m))
  }

  function Deciphered(key: KeySchedule.Key, iv: Block, c: seq<bv8>): Option<seq<bv8>> {
    if |c| < 16 || |c| % 16 != 0 then None
    else Unpadded(Cbc.Decrypted(ExpandedKey(key), iv, c))
  }

  lemma ByteOfSize(k: nat)
    requires k <= 16
    ensures (k as bv8) as nat == k
  {
  }

  lemma UnpaddedOfPadded(m: seq<bv8>)
    requires m != []
    ensures Unpadded(Padded(m)) == Some(m)
  {
    var k := PaddingSize(|m|);
    var p := Padded(m);
    ByteOfSize(k);
    assert p[|p| - 1] == k as bv8;
    assert p[|p| - k..] == Padding(k);
    assert p[..|p| - k] == m;
  }

  lemma PaddedOfUnpadded(p: seq<bv8>)
    requires p != [] && |p| % 16 == 0 && Unpadded(p).Some?
    ensures Unpadded(p).value != []
    ensures Padded(Unpadded(p).value) == p
  {
    var m := Unpadded(p).value;
    var k := p[|p| - 1] as nat;
    assert PaddingSize(|m|) == k;
    assert p == p[..|p| - k] + p[|p| - k..];
  }

  // The padding is that of section 6.3 of RFC 5652: up to the next multiple of the
  // block, never empty, each byte the number of bytes added.
  lemma PaddingBytes(m: seq<bv8>)
    ensures var p := Padded(m);
            && |m| < |p| <= |m| + 16 && |p| % 16 == 0 && p[..|m|] == m
            && forall i :: |m| <= i < |p| ==> p[i] as nat == |p| - |m|
  {
    var p := Padded(m);
    forall i | |m| <= i < |p| ensures p[i] as nat == |p| - |m| {
      ByteOfSize(PaddingSize(|m|));
    }
  }

  // Every non-empty message comes back.
  lemma RoundTrip(key: KeySchedule.Key, iv: Block, m: seq<bv8>)
    requires m != []
    ensures Deciphered(key, iv, Enciphered(key, iv, m)) == Some(m)
  {
    hide Padded;
    hide Unpadded;
    hide ExpandedKey;
    Cbc.DecryptedOfEncrypted(ExpandedKey(key), iv, Padded(m));
    UnpaddedOfPadded(m);
    assert |Padded(m)| >= 16 by { PaddedLength(m); }
  }

  lemma PaddedLength(m: seq<bv8>)
    ensures |Padded(m)| == (|m| / 16 + 1) * 16
  {
  }

  // Every accepted ciphertext is the only one of the message it stands for.
  lemma ReverseRoundTrip(key: KeySchedule.Key, iv: Block, c: seq<bv8>)
    requires Deciphered(key, iv, c).Some?
    ensures Deciphered(key, iv, c).value != []
    ensures Enciphered(key, iv, Deciphered(key, iv, c).value) == c
  {
    hide Padded;
    hide Unpadded;
    hide ExpandedKey;
    var p := Cbc.Decrypted(ExpandedKey(key), iv, c);
    PaddedOfUnpadded(p);
    Cbc.EncryptedOfDecrypted(ExpandedKey(key), iv, c);
  }

  // Accepted ciphertexts are exactly the encryptions of non-empty messages, and
  // no two messages share one.
  lemma AcceptedIffEncrypted(key: KeySchedule.Key, iv: Block, c: seq<bv8>)
    ensures Deciphered(key, iv, c).Some? <==> exists m :: m != [] && Enciphered(key, iv, m) == c
  {
    if Deciphered(key, iv, c).Some? {
      ReverseRoundTrip(key, iv, c);
    }
    forall m | m != [] && Enciphered(key, iv, m) == c ensures Deciphered(key, iv, c).Some? {
      RoundTrip(key, iv, m);
    }
  }

  lemma EncipheredInjective(key: KeySchedule.Key, iv: Block, m: seq<bv8>, n: seq<bv8>)
    requires m != [] && n != [] && Enciphered(key, iv, m) == Enciphered(key, iv, n)
    ensures m == n
  {
    RoundTrip(key, iv, m);
    RoundTrip(key, iv, n);
  }

  // ---- The source's code.

  // GetEncryptedSize, in the source's 64-bit arithmetic.
  function GetEncryptedSize(size: nat): nat {
    ((size / BLOCK_SIZE + 1) * BLOCK_SIZE) % SIZE_LIMIT
  }

  // The size is that of the padded message exactly while the sum does not wrap.
  lemma EncryptedSizeExact(size: nat)
    requires size < SIZE_LIMIT
    ensures GetEncryptedSize(size) == size + PaddingSize(size) <==> size < SIZE_LIMIT - BLOCK_SIZE
  {
  }

  // The 40 bytes a password and a salt hash to.
  function DerivedKey(password: seq<bv8>, salt: seq<bv8>): (k: seq<bv8>)
    requires |password| + |salt| < Sha1.MESSAGE_LIMIT
    ensures |k| == 40
  {
    var hash := Sha1.Digest(password + salt);
    Sha1.Digest(MaskedWith(hash, 0x36)) + Sha1.Digest(MaskedWith(hash, 0x5c))
  }

  // 64 copies of a byte, the first of them combined with the hash.
  function MaskedWith(hash: seq<bv8>, fill: bv8): (b: seq<bv8>)
    ensures |b| == 64
  {
    seq(64, i requires 0 <= i < 64 => if i < |hash| then fill ^ hash[i] else fill)
  }

  // The password comes first, then the salt; their digest fills two buffers of 64
  // bytes, over 0x36 and over 0x5c, and the key is the digests of these.
  lemma DerivedKeyMeans(password: seq<bv8>, salt: seq<bv8>, inner: seq<bv8>, outer: seq<bv8>)
    requires |password| + |salt| < Sha1.MESSAGE_LIMIT && |inner| == |outer| == 64
    requires var hash := Sha1.Digest(password + salt);
             && inner[..20] == seq(20, i requires 0 <= i < 20 => hash[i] ^ 0x36) && inner[20..] == seq(44, _ => 0x36)
             && outer[..20] == seq(20, i requires 0 <= i < 20 => hash[i] ^ 0x5c) && outer[20..] == seq(44, _ => 0x5c)
    ensures DerivedKey(password, salt) == Sha1.Digest(inner) + Sha1.Digest(outer)
    ensures DerivedKey(password, salt) == DerivedKey(password + salt, [])
  {
    var hash := Sha1.Digest(password + salt);
    assert (password + salt) + [] == password + salt;
    hide Sha1.Digest;
    forall i | 0 <= i < 64 ensures inner[i] == MaskedWith(hash, 0x36)[i] && outer[i] == MaskedWith(hash, 0x5c)[i] {
      if i < 20 {
        assert inner[i] == inner[..20][i] && outer[i] == outer[..20][i];
      } else {
        assert inner[i] == inner[20..][i - 20] && outer[i] == outer[20..][i - 20];
      }
    }
    assert inner == MaskedWith(hash, 0x36) && outer == MaskedWith(hash, 0x5c);
  }

  method GetMSCryptDeriveKeyWithSHA1(endian: Endian, password: seq<bv8>, salt: seq<bv8>) returns (k: seq<bv8>)
    requires |password| + |salt| < Sha1.MESSAGE_LIMIT
    ensures k == DerivedKey(password, salt)
  {
    hide Sha1.Digest;
    var buf1 := new bv8[64](_ => 0x36);
    var buf2 := new bv8[64](_ => 0x5c);
    var hash := Sha1.MakeDigest(endian, password + salt);
    for i := 0 to |hash|
      invariant forall j :: 0 <= j < 64 ==> buf1[j] == if j < i then 0x36 ^ hash[j] else 0x36
      invariant forall j :: 0 <= j < 64 ==> buf2[j] == if j < i then 0x5c ^ hash[j] else 0x5c
    {
      buf1[i] := buf1[i] ^ hash[i];
      buf2[i] := buf2[i] ^ hash[i];
    }
    assert buf1[..] == MaskedWith(hash, 0x36) && buf2[..] == MaskedWith(hash, 0x5c);
    var first := Sha1.MakeDigest(endian, buf1[..]);
    var second := Sha1.MakeDigest(endian, buf2[..]);
    k := first + second;
  }

  // Fills an array from the front of the bytes given.
  method CopyBytes(to: array<bv8>, from: seq<bv8>)
    requires to.Length <= |from|
    modifies to
    ensures to[..] == from[..to.Length]
  {
    for i := 0 to to.Length
      invariant to[..i] == from[..i]
    {
      to[i] := from[i];
    }
    assert to[..] == to[..to.Length];
  }

  // Encryptor::Key.
  class Key {
    const key: array<bv8>
    const iv: array<bv8>
    var isAvailable: bool

    ghost predicate Valid() {
      key.Length == 32 && iv.Length == 16 && key != iv
    }

    constructor ()
      ensures Valid() && !isAvailable && fresh(key) && fresh(iv)
    {
      key := new bv8[32](_ => 0);
      iv := new bv8[16](_ => 0);
      isAvailable := false;
    }

    method DeriveFromPassword(endian: Endian, password: seq<bv8>, salt: seq<bv8>, given: array?<bv8>) returns (ok: bool)
      requires Valid() && |password| + |salt| < Sha1.MESSAGE_LIMIT
      requires given != null ==> given.Length == 16 && given != key && given != iv
      modifies this, key, iv
      ensures ok == (!old(isAvailable) && password != [])
      ensures ok ==> isAvailable && key[..] == DerivedKey(password, salt)[..32]
      ensures ok ==> iv[..] == if given != null then old(given[..]) else seq(16, _ => 0)
      ensures !ok ==> isAvailable == old(isAvailable) && key[..] == old(key[..]) && iv[..] == old(iv[..])
    {
      if isAvailable || password == [] {
        return false;
      }
      hide DerivedKey;
      var derived := GetMSCryptDeriveKeyWithSHA1(endian, password, salt);
      if given != null {
        CopyBytes(iv, given[..]);
      } else {
        CopyBytes(iv, seq(16, _ => 0));
      }
      CopyBytes(key, derived);
      isAvailable := true;
      return true;
    }
  }

  // std::string as the source uses it here: resized, and written through its buffer.
  class ByteString {
    var data: array<bv8>

    constructor (bytes: seq<bv8>)
      ensures data[..] == bytes && fresh(data)
    {
      data := new bv8[|bytes|](i requires 0 <= i < |bytes| => bytes[i]);
    }

    // New bytes at the end are zero.
    method Resize(n: nat)
      modifies this
      ensures fresh(data) && data.Length == n
      ensures n <= old(data.Length) ==> data[..] == old(data[..n])
      ensures old(data.Length) <= n ==> data[..] == old(data[..]) + seq(n - old(data.Length), _ => 0)
    {
      var before := data;
      data := new bv8[n](i requires 0 <= i reads before => if i < before.Length then before[i] else 0);
    }
  }

  lemma PadsInPlace(m: seq<bv8>, s: seq<bv8>, n: nat)
    requires |m| <= n <= |s| && n == |m| + PaddingSize(|m|)
    requires s[..|m|] == m
    requires forall k :: |m| <= k < n ==> s[k] == (n - |m|) as bv8
    ensures s[..n] == Padded(m)
  {
  }

  method EncryptArray(key: Key, buf: array?<bv8>, bufSize: nat) returns (ok: bool, newSize: nat)
    requires key.Valid()
    requires buf != null ==> buf.Length <= MAX_BUFFER && bufSize <= buf.Length && GetEncryptedSize(bufSize) <= buf.Length
    requires buf != key.key && buf != key.iv
    modifies buf
    ensures ok == (key.isAvailable && buf != null && bufSize != 0)
    ensures ok ==> newSize == bufSize + PaddingSize(bufSize) <= buf.Length
    ensures ok ==> buf[..] == Enciphered(key.key[..], key.iv[..], old(buf[..bufSize])) + old(buf[newSize..])
    ensures !ok ==> newSize == bufSize && (buf != null ==> buf[..] == old(buf[..]))
  {
    if !key.isAvailable {
      return false, bufSize;
    }
    if buf == null || bufSize == 0 {
      return false, bufSize;
    }
    var encSize := GetEncryptedSize(bufSize);
    EncryptedSizeExact(bufSize);
    var paddingSize := encSize - bufSize;
    var paddingValue := paddingSize as bv8;
    ghost var m, s := buf[..bufSize], buf[..];
    for i := bufSize to encSize
      invariant buf[..bufSize] == m && buf[encSize..] == s[encSize..]
      invariant forall k :: bufSize <= k < i ==> buf[k] == paddingValue
    {
      buf[i] := paddingValue;
    }
    PadsInPlace(m, buf[..], encSize);
    Cbc.TransformCBC(key.key, key.iv, buf, encSize / BLOCK_SIZE);
    ok, newSize := true, encSize;
  }

  lemma PaddingChecked(p: seq<bv8>, k: nat)
    requires k < |p| && 1 <= k <= 16 && p[|p| - 1] == k as bv8
    ensures Unpadded(p) == (if forall i :: |p| - k <= i < |p| ==> p[i] == k as bv8 then Some(p[..|p| - k]) else None)
  {
    ByteOfSize(k);
    if forall i :: |p| - k <= i < |p| ==> p[i] == k as bv8 {
      assert p[|p| - k..] == Padding(k);
    } else {
      var i :| |p| - k <= i < |p| && p[i] != k as bv8;
      assert p[|p| - k..][i - (|p| - k)] != Padding(k)[i - (|p| - k)];
    }
  }

  lemma PrefixOfPrefix(s: seq<bv8>, n: nat, k: nat)
    requires k <= n <= |s|
    ensures s[..n][..k] == s[..k]
  {
  }

  // The unpadding half of DecryptArray.
  method RemovePadding(buf: array<bv8>, size: nat) returns (ok: bool, newSize: nat)
    requires 16 <= size <= buf.Length
    ensures ok <==> Unpadded(buf[..size]).Some?
    ensures newSize <= size && (!ok ==> newSize == size)
    ensures ok ==> Unpadded(buf[..size]) == Some(buf[..newSize])
  {
    ghost var p := buf[..size];
    var paddingValue := buf[size - 1];
    var paddingSize := paddingValue as nat;
    if paddingValue == 0x00 || paddingSize > BLOCK_SIZE {
      return false, size;
    }
    if size <= paddingSize {
      return false, size;
    }
    PaddingChecked(p, paddingSize);
    hide Unpadded;
    for i := size - paddingSize to size
      invariant forall k :: size - paddingSize <= k < i ==> p[k] == paddingValue
    {
      if buf[i] != paddingValue {
        assert p[i] != paddingValue;
        return false, size;
      }
    }
    ok, newSize := true, size - paddingSize;
    PrefixOfPrefix(buf[..], size, newSize);
  }

  method DecryptArray(key: Key, buf: array?<bv8>, bufSize: nat) returns (ok: bool, newSize: nat)
    requires key.Valid()
    requires buf != null ==> bufSize <= buf.Length
    requires buf != key.key && buf != key.iv
    modifies buf
    ensures ok <==> key.isAvailable && buf != null && Deciphered(key.key[..], key.iv[..], old(buf[..bufSize])).Some?
    ensures ok ==> newSize <= bufSize && Deciphered(key.key[..], key.iv[..], old(buf[..bufSize])).value == buf[..newSize]
    ensures !ok ==> newSize == bufSize
    ensures buf != null ==> buf[bufSize..] == old(buf[bufSize..])
    // Unless it stops before deciphering, the buffer is deciphered, accepted or not.
    ensures buf != null ==>
              buf[..bufSize] == if key.isAvailable && 16 <= bufSize && bufSize % 16 == 0
                                then Cbc.Decrypted(ExpandedKey(key.key[..]), key.iv[..], old(buf[..bufSize]))
                                else old(buf[..bufSize])
  {
    hide ExpandedKey;
    hide Unpadded;
    if !key.isAvailable {
      return false, bufSize;
    }
    if buf == null || bufSize == 0 {
      return false, bufSize;
    }
    if bufSize < BLOCK_SIZE || bufSize % BLOCK_SIZE != 0 {
      return false, bufSize;
    }
    ghost var c := buf[..bufSize];
    Cbc.InverseTransformCBC(key.key, key.iv, buf, bufSize / BLOCK_SIZE);
    assert buf[..bufSize] == Cbc.Decrypted(ExpandedKey(key.key[..]), key.iv[..], c);
    ok, newSize := RemovePadding(buf, bufSize);
  }

  method EncryptString(key: Key, data: ByteString?) returns (ok: bool)
    requires key.Valid()
    requires data != null ==> data.data.Length <= MAX_BUFFER - BLOCK_SIZE && data.data != key.key && data.data != key.iv
    modifies data, if data != null then {data.data} else {}
    ensures ok == (data != null && old(data.data[..]) != [] && key.isAvailable)
    ensures ok ==> data.data[..] == Enciphered(key.key[..], key.iv[..], old(data.data[..]))
    ensures data != null ==> data.data == old(data.data) || fresh(data.data)
    // Without a key the string is left with the room for the padding already added.
    ensures data != null && old(data.data[..]) != [] && !ok ==>
              data.data[..] == old(data.data[..]) + seq(PaddingSize(old(data.data.Length)), _ => 0)
  {
    if data == null || data.data.Length == 0 {
      return false;
    }
    var size := data.data.Length;
    EncryptedSizeExact(size);
    data.Resize(GetEncryptedSize(size));
    assert data.data[..size] == old(data.data[..]);
    ok, size := EncryptArray(key, data.data, size);
  }

  method DecryptString(key: Key, data: ByteString?) returns (ok: bool)
    requires key.Valid()
    requires data != null ==> data.data != key.key && data.data != key.iv
    modifies data, if data != null then {data.data} else {}
    ensures ok <==> data != null && key.isAvailable && Deciphered(key.key[..], key.iv[..], old(data.data[..])).Some?
    ensures ok ==> Deciphered(key.key[..], key.iv[..], old(data.data[..])) == Some(data.data[..])
    // Unless it stops before deciphering, a string that is not accepted is left deciphered.
    ensures data != null && !ok ==>
              data.data == old(data.data)
              && data.data[..] == if key.isAvailable && 16 <= data.data.Length && data.data.Length % 16 == 0
                                  then Cbc.Decrypted(ExpandedKey(key.key[..]), key.iv[..], old(data.data[..]))
                                  else old(data.data[..])
  {
    hide ExpandedKey;
    hide Unpadded;
    if data == null || data.data.Length == 0 {
      return false;
    }
    var size := data.data.Length;
    assert data.data[..size] == data.data[..];
    ok, size := DecryptArray(key, data.data, size);
    assert data.data[..data.data.Length] == data.data[..];
    if !ok {
      return false;
    }
    data.Resize(size);
  }

  // EncryptString and then DecryptString, as a caller sees them.
  method EncryptThenDecrypt(key: Key, data: ByteString) returns (ok: bool)
    requires key.Valid() && key.isAvailable && data.data.Length != 0
    requires data.data.Length <= MAX_BUFFER - BLOCK_SIZE && data.data != key.key && data.data != key.iv
    modifies data, data.data
    ensures ok && data.data[..] == old(data.data[..])
  {
    hide Enciphered;
    hide Deciphered;
    ghost var m := data.data[..];
    ok := EncryptString(key, data);
    RoundTrip(key.key[..], key.iv[..], m);
    ok := DecryptString(key, data);
  }

  // ---- ProtectData and UnprotectData as built for Linux, the password and the
  // salt being what the password manager and the random source returned.

  const SALT_SIZE := 32

  function Protected(password: seq<bv8>, salt: seq<bv8>, m: seq<bv8>): seq<bv8>
    requires |password| + |salt| < Sha1.MESSAGE_LIMIT
  {
    salt + Enciphered(DerivedKey(password, salt)[..32], seq(16, _ => 0), m)
  }

  method ProtectData(endian: Endian, password: Option<seq<bv8>>, salt: seq<bv8>, plainText: seq<bv8>)
    returns (cipherText: Option<seq<bv8>>)
    requires |salt| == SALT_SIZE && |plainText| <= MAX_BUFFER - BLOCK_SIZE
    requires password.Some? ==> |password.value| + SALT_SIZE < Sha1.MESSAGE_LIMIT
    ensures cipherText == if password.Some? && password.value != [] && plainText != []
                          then Some(Protected(password.value, salt, plainText)) else None
  {
    hide Enciphered;
    hide DerivedKey;
    if password.None? {
      return None;
    }
    var key := new Key();
    var ok := key.DeriveFromPassword(endian, password.value, salt, null);
    if !ok {
      return None;
    }
    var buf := new ByteString(plainText);
    ok := EncryptString(key, buf);
    if !ok {
      return None;
    }
    cipherText := Some(salt + buf.data[..]);
  }

  method UnprotectData(endian: Endian, password: Option<seq<bv8>>, cipherText: seq<bv8>) returns (plainText: Option<seq<bv8>>)
    requires password.Some? ==> |password.value| + SALT_SIZE < Sha1.MESSAGE_LIMIT
    ensures plainText == if |cipherText| < SALT_SIZE || password.None? || password.value == [] then None
                         else Deciphered(DerivedKey(password.value, cipherText[..SALT_SIZE])[..32], seq(16, _ => 0),
                                         cipherText[SALT_SIZE..])
  {
    hide Deciphered;
    hide DerivedKey;
    if |cipherText| < SALT_SIZE {
      return None;
    }
    if password.None? {
      return None;
    }
    var salt := cipherText[..SALT_SIZE];
    var key := new Key();
    var ok := key.DeriveFromPassword(endian, password.value, salt, null);
    if !ok {
      return None;
    }
    var buf := new ByteString(cipherText[SALT_SIZE..]);
    ok := DecryptString(key, buf);
    if !ok {
      return None;
    }
    plainText := Some(buf.data[..]);
  }

  // What ProtectData returns, UnprotectData turns back, under the same password.
  method ProtectThenUnprotect(endian: Endian, password: seq<bv8>, salt: seq<bv8>, m: seq<bv8>) returns (back: Option<seq<bv8>>)
    requires password != [] && |password| + SALT_SIZE < Sha1.MESSAGE_LIMIT && |salt| == SALT_SIZE
    requires m != [] && |m| <= MAX_BUFFER - BLOCK_SIZE
    ensures back == Some(m)
  {
    hide Enciphered;
    hide Deciphered;
    hide DerivedKey;
    var c := ProtectData(endian, Some(password), salt, m);
    assert c.value[..SALT_SIZE] == salt;
    assert c.value[SALT_SIZE..] == Enciphered(DerivedKey(password, salt)[..32], seq(16, _ => 0), m);
    RoundTrip(DerivedKey(password, salt)[..32], seq(16, _ => 0), m);
    back := UnprotectData(endian, Some(password), c.value);
  }
}
