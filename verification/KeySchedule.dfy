// The key schedule: the word-by-word expansion of section 5.2 of FIPS 197, and
// the source's loop, which fills 32 bytes at a time and half as many at the end.
module KeySchedule {
  import opened Gf256
  import opened SBoxTables
  import opened Aes256

  type Key = s: seq<bv8> | |s| == 32 witness seq(32, _ => 0)
  type Word = s: seq<bv8> | |s| == 4 witness [0, 0, 0, 0]

  function XorWord(a: Word, b: Word): Word {
    [Xor(a[0], b[0]), Xor(a[1], b[1]), Xor(a[2], b[2]), Xor(a[3], b[3])]
  }

  function SubWord(a: Word): Word {
    [SBox(a[0]), SBox(a[1]), SBox(a[2]), SBox(a[3])]
  }

  function RotWord(a: Word): Word {
    [a[1], a[2], a[3], a[0]]
  }

  // x^n in the field.
  function PowerOfX(n: nat): bv8 {
    if n == 0 then 1 else GfDouble(PowerOfX(n - 1))
  }

  function Rcon(i: nat): Word
    requires i > 0
  {
    [PowerOfX(i - 1), 0, 0, 0]
  }

  // KeyExpansion with Nk = 8.
  function ExpandedWord(key: Key, i: nat): Word {
    if i < 8 then
      key[4 * i..4 * i + 4]
    else
      var temp := ExpandedWord(key, i - 1);
      var temp :=
        if i % 8 == 0 then XorWord(SubWord(RotWord(temp)), Rcon(i / 8))
        else if i % 8 == 4 then SubWord(temp)
        else temp;
      XorWord(ExpandedWord(key, i - 8), temp)
  }

  function ExpandedByte(key: Key, n: nat): bv8 {
    ExpandedWord(key, n / 4)[n % 4]
  }

  function ExpandedKey(key: Key): Schedule {
    seq(240, n requires 0 <= n < 240 => ExpandedByte(key, n))
  }

  // The same expansion one byte at a time: byte `i` of the stretch of 32 bytes
  // that starts at 32 * base, over the byte one stretch before.

  lemma WordOfByte(key: Key, base: nat, i: nat)
    requires i < 32
    ensures ExpandedByte(key, 32 * base + i) == ExpandedWord(key, 8 * base + i / 4)[i % 4]
  {
    hide ExpandedWord;
    assert (32 * base + i) / 4 == 8 * base + i / 4 && (32 * base + i) % 4 == i % 4;
  }

  lemma XorWordAt(a: Word, b: Word, r: nat)
    requires r < 4
    ensures XorWord(a, b)[r] == Xor(a[r], b[r])
  {
  }

  // The word recurrence of KeyExpansion, word j of the stretch.
  lemma WordRecurrence(key: Key, base: nat, j: nat)
    requires 1 <= base && j < 8
    ensures var i := 8 * base + j;
            var temp := ExpandedWord(key, i - 1);
            && (j == 0 ==> ExpandedWord(key, i) == XorWord(ExpandedWord(key, i - 8), XorWord(SubWord(RotWord(temp)), Rcon(base))))
            && (j == 4 ==> ExpandedWord(key, i) == XorWord(ExpandedWord(key, i - 8), SubWord(temp)))
            && (j != 0 && j != 4 ==> ExpandedWord(key, i) == XorWord(ExpandedWord(key, i - 8), temp))
  {
    hide XorWord;
    hide SubWord;
    hide RotWord;
    hide Rcon;
    assert (8 * base + j) % 8 == j && (8 * base + j) / 8 == base;
  }

  lemma FirstWordRecurrence(key: Key, base: nat, r: nat)
    requires 1 <= base && r < 4
    ensures ExpandedByte(key, 32 * base + r)
         == Xor(ExpandedByte(key, 32 * base + r - 32),
                Xor(SBox(ExpandedByte(key, 32 * base - 4 + (r + 1) % 4)), if r == 0 then PowerOfX(base - 1) else 0))
  {
    hide SBox;
    hide Xor;
    hide PowerOfX;
    hide ExpandedByte;
    hide ExpandedWord;
    hide XorWord;
    WordOfByte(key, base, r);
    WordOfByte(key, base - 1, r);
    WordOfByte(key, base - 1, 28 + (r + 1) % 4);
    WordRecurrence(key, base, 0);
    var temp := ExpandedWord(key, 8 * base - 1);
    XorWordAt(ExpandedWord(key, 8 * base - 8), XorWord(SubWord(RotWord(temp)), Rcon(base)), r);
    XorWordAt(SubWord(RotWord(temp)), Rcon(base), r);
  }

  lemma PlainRecurrence(key: Key, base: nat, i: nat)
    requires 1 <= base && (4 <= i < 16 || 20 <= i < 32)
    ensures ExpandedByte(key, 32 * base + i) == Xor(ExpandedByte(key, 32 * base + i - 32), ExpandedByte(key, 32 * base + i - 4))
  {
    hide Xor;
    hide ExpandedByte;
    hide ExpandedWord;
    hide XorWord;
    WordOfByte(key, base, i);
    WordOfByte(key, base - 1, i);
    WordOfByte(key, base, i - 4);
    WordRecurrence(key, base, i / 4);
    assert (i - 4) / 4 == i / 4 - 1 && (i - 4) % 4 == i % 4;
    XorWordAt(ExpandedWord(key, 8 * base + i / 4 - 8), ExpandedWord(key, 8 * base + i / 4 - 1), i % 4);
  }

  lemma MiddleRecurrence(key: Key, base: nat, i: nat)
    requires 1 <= base && 16 <= i < 20
    ensures ExpandedByte(key, 32 * base + i) == Xor(ExpandedByte(key, 32 * base + i - 32), SBox(ExpandedByte(key, 32 * base + i - 4)))
  {
    hide SBox;
    hide Xor;
    hide ExpandedByte;
    hide ExpandedWord;
    hide XorWord;
    WordOfByte(key, base, i);
    WordOfByte(key, base - 1, i);
    WordOfByte(key, base, i - 4);
    WordRecurrence(key, base, 4);
    XorWordAt(ExpandedWord(key, 8 * base - 4), SubWord(ExpandedWord(key, 8 * base + 3)), i - 16);
  }

  lemma RoundConstant(n: nat)
    requires n < 7
    ensures PowerOfX(n) == 1 << n
  {
    if n > 0 {
      assert PowerOfX(0) == 1;
      assert PowerOfX(1) == 2;
      assert PowerOfX(2) == 4;
      assert PowerOfX(3) == 8;
      assert PowerOfX(4) == 16;
      assert PowerOfX(5) == 32;
      assert PowerOfX(6) == 64;
    }
  }

  lemma KeyBytes(key: Key, n: nat)
    requires n < 32
    ensures ExpandedByte(key, n) == key[n]
  {
  }

  ghost predicate FilledTo(w: seq<bv8>, key: Key, n: nat) {
    n <= |w| && forall k :: 0 <= k < n ==> w[k] == ExpandedByte(key, k)
  }

  lemma ExtendFilled(w: seq<bv8>, key: Key, n: nat, v: bv8)
    requires n < |w| && FilledTo(w, key, n)
    requires v == ExpandedByte(key, n)
    ensures FilledTo(w[n := v], key, n + 1)
  {
    hide ExpandedByte;
  }

  lemma NoneFilled(w: seq<bv8>, key: Key)
    ensures FilledTo(w, key, 0)
  {
  }

  lemma FilledAt(w: seq<bv8>, key: Key, n: nat, k: nat)
    requires k < n && FilledTo(w, key, n)
    ensures w[k] == ExpandedByte(key, k)
  {
    hide ExpandedByte;
  }

  lemma AllFilled(w: seq<bv8>, key: Key)
    requires |w| == 240 && FilledTo(w, key, 240)
    ensures w == ExpandedKey(key)
  {
    hide ExpandedByte;
  }

  lemma FirstWordByte(w: seq<bv8>, key: Key, base: nat, r: nat)
    requires |w| == 240 && 1 <= base <= 7 && r < 4 && FilledTo(w, key, 32 * base + r)
    ensures r == 0 ==> ExpandedByte(key, 32 * base) == Xor(w[32 * base - 32], Xor(SBox(w[32 * base - 3]), PowerOfX(base - 1)))
    ensures r != 0 ==> ExpandedByte(key, 32 * base + r) == Xor(w[32 * base - 32 + r], SBox(w[32 * base - 4 + (r + 1) % 4]))
  {
    hide SBox;
    hide Xor;
    hide PowerOfX;
    hide ExpandedByte;
    FirstWordRecurrence(key, base, r);
    FilledAt(w, key, 32 * base + r, 32 * base - 32 + r);
    FilledAt(w, key, 32 * base + r, 32 * base - 4 + (r + 1) % 4);
    XorZero(SBox(w[32 * base - 4 + (r + 1) % 4]));
  }

  // The first word of a stretch as the source computes it.
  method FillFirstWord(w: array<bv8>, base: nat, ghost key: Key)
    requires w.Length == 240 && 1 <= base <= 7
    requires FilledTo(w[..], key, 32 * base)
    modifies w
    ensures FilledTo(w[..], key, 32 * base + 4)
  {
    hide SBox;
    hide Xor;
    hide PowerOfX;
    hide ExpandedByte;
    hide FilledTo;
    var at, prev := 32 * base, 32 * base - 32;
    var rcon: bv8 := 1 << (base - 1);
    var v := Xor(Xor(w[prev + 0], SBox(w[prev + 29])), rcon);
    RoundConstant(base - 1);
    XorAssoc(w[prev], SBox(w[prev + 29]), rcon);
    FirstWordByte(w[..], key, base, 0);
    ExtendFilled(w[..], key, at, v);
    w[at + 0] := v;
    v := Xor(w[prev + 1], SBox(w[prev + 30]));
    FirstWordByte(w[..], key, base, 1);
    ExtendFilled(w[..], key, at + 1, v);
    w[at + 1] := v;
    v := Xor(w[prev + 2], SBox(w[prev + 31]));
    FirstWordByte(w[..], key, base, 2);
    ExtendFilled(w[..], key, at + 2, v);
    w[at + 2] := v;
    v := Xor(w[prev + 3], SBox(w[prev + 28]));
    FirstWordByte(w[..], key, base, 3);
    ExtendFilled(w[..], key, at + 3, v);
    w[at + 3] := v;
  }

  // MakeKeySchedule of the source.
  method MakeKeySchedule(key: array<bv8>, w: array<bv8>)
    requires key.Length == 32 && w.Length == 240 && key != w
    modifies w
    ensures w[..] == ExpandedKey(key[..])
  {
    hide SBox;
    hide Xor;
    hide PowerOfX;
    hide ExpandedByte;
    hide FilledTo;
    ghost var k := key[..];
    assert FilledTo(w[..], k, 0) by { NoneFilled(w[..], k); }
    for i := 0 to 32
      invariant FilledTo(w[..], k, i)
    {
      KeyBytes(k, i);
      ExtendFilled(w[..], k, i, key[i]);
      w[i] := key[i];
    }
    for base := 1 to 8
      invariant FilledTo(w[..], k, if base < 8 then 32 * base else 240)
    {
      var at := 32 * base;
      var prev := at - 32;
      FillFirstWord(w, base, k);
      for i := 4 to 16
        invariant FilledTo(w[..], k, at + i)
      {
        FilledAt(w[..], k, at + i, prev + i);
        FilledAt(w[..], k, at + i, at + i - 4);
        PlainRecurrence(k, base, i);
        var v := Xor(w[prev + i], w[at + i - 4]);
        ExtendFilled(w[..], k, at + i, v);
        w[at + i] := v;
      }
      if base == 7 {
        break;
      }
      for i := 16 to 20
        invariant FilledTo(w[..], k, at + i)
      {
        FilledAt(w[..], k, at + i, prev + i);
        FilledAt(w[..], k, at + i, at + i - 4);
        MiddleRecurrence(k, base, i);
        var v := Xor(w[prev + i], SBox(w[at + i - 4]));
        ExtendFilled(w[..], k, at + i, v);
        w[at + i] := v;
      }
      for i := 20 to 32
        invariant FilledTo(w[..], k, at + i)
      {
        FilledAt(w[..], k, at + i, prev + i);
        FilledAt(w[..], k, at + i, at + i - 4);
        PlainRecurrence(k, base, i);
        var v := Xor(w[prev + i], w[at + i - 4]);
        ExtendFilled(w[..], k, at + i, v);
        w[at + i] := v;
      }
    }
    AllFilled(w[..], k);
  }
}
