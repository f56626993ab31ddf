// The column mixing of the cipher: the two circulant matrices of sections 5.1.3
// and 5.3.3 of FIPS 197, each the inverse of the other.
module Columns {
  import opened Gf256

  type Column = s: seq<bv8> | |s| == 4 witness [0, 0, 0, 0]

  // One row of a matrix applied to a column.
  function Dot(k0: bv8, k1: bv8, k2: bv8, k3: bv8, s: Column): bv8 {
    Xor4(GfMul(k0, s[0]), GfMul(k1, s[1]), GfMul(k2, s[2]), GfMul(k3, s[3]))
  }

  // Equation 5.6 of FIPS 197.
  function MixColumn(s: Column): Column {
    [Dot(0x02, 0x03, 0x01, 0x01, s),
     Dot(0x01, 0x02, 0x03, 0x01, s),
     Dot(0x01, 0x01, 0x02, 0x03, s),
     Dot(0x03, 0x01, 0x01, 0x02, s)]
  }

  // Equation 5.10 of FIPS 197.
  function InvMixColumn(s: Column): Column {
    [Dot(0x0e, 0x0b, 0x0d, 0x09, s),
     Dot(0x09, 0x0e, 0x0b, 0x0d, s),
     Dot(0x0d, 0x09, 0x0e, 0x0b, s),
     Dot(0x0b, 0x0d, 0x09, 0x0e, s)]
  }

  // Four products of one byte add up to one product with the sum of the factors.
  lemma CollectFactors(k0: bv8, k1: bv8, k2: bv8, k3: bv8, v: bv8)
    ensures Xor4(GfMul(k0, v), GfMul(k1, v), GfMul(k2, v), GfMul(k3, v)) == GfMul(Xor4(k0, k1, k2, k3), v)
  {
    hide GfMul;
    hide Xor;
    GfMulLinearLeft(k0, k1, v);
    GfMulLinearLeft(k2, k3, v);
    GfMulLinearLeft(Xor(k0, k1), Xor(k2, k3), v);
  }

  // Multiplying by k and by 2 or 3, in either order, is one multiplication.
  lemma ComposeFactors(k: bv8, v: bv8)
    requires k < 0x80
    ensures GfMul(k, GfMul(0x01, v)) == GfMul(k, v)
    ensures GfMul(k, GfMul(0x02, v)) == GfMul(k << 1, v)
    ensures GfMul(k, GfMul(0x03, v)) == GfMul(Xor(k, k << 1), v)
    ensures GfMul(0x01, GfMul(k, v)) == GfMul(k, v)
    ensures GfMul(0x02, GfMul(k, v)) == GfMul(k << 1, v)
    ensures GfMul(0x03, GfMul(k, v)) == GfMul(Xor(k, k << 1), v)
  {
    hide GfMul;
    hide Xor;
    hide GfDouble;
    ProductsWithMix(v);
    ProductsWithMix(GfMul(k, v));
    GfMulOfDouble(k, v);
    DoubleOfGfMul(k, v);
    GfMulLinear(k, v, GfDouble(v));
    GfMulLinearLeft(k, k << 1, v);
  }

  // What k times m comes to as one factor, for m one of 1, 2 and 3.
  function Factor(k: bv8, m: bv8): bv8 {
    if m == 0x01 then k else if m == 0x02 then k << 1 else Xor(k, k << 1)
  }

  predicate IsMixFactor(m: bv8) {
    m == 0x01 || m == 0x02 || m == 0x03
  }

  // One entry of the product of the two matrices, in either order.
  lemma Entry(k0: bv8, k1: bv8, k2: bv8, k3: bv8, m0: bv8, m1: bv8, m2: bv8, m3: bv8, v: bv8)
    requires k0 < 0x80 && k1 < 0x80 && k2 < 0x80 && k3 < 0x80
    requires IsMixFactor(m0) && IsMixFactor(m1) && IsMixFactor(m2) && IsMixFactor(m3)
    ensures Xor4(GfMul(k0, GfMul(m0, v)), GfMul(k1, GfMul(m1, v)), GfMul(k2, GfMul(m2, v)), GfMul(k3, GfMul(m3, v)))
         == GfMul(Xor4(Factor(k0, m0), Factor(k1, m1), Factor(k2, m2), Factor(k3, m3)), v)
    ensures Xor4(GfMul(m0, GfMul(k0, v)), GfMul(m1, GfMul(k1, v)), GfMul(m2, GfMul(k2, v)), GfMul(m3, GfMul(k3, v)))
         == GfMul(Xor4(Factor(k0, m0), Factor(k1, m1), Factor(k2, m2), Factor(k3, m3)), v)
  {
    hide GfMul;
    hide Xor;
    hide Xor4;
    ComposeFactors(k0, v);
    ComposeFactors(k1, v);
    ComposeFactors(k2, v);
    ComposeFactors(k3, v);
    CollectFactors(Factor(k0, m0), Factor(k1, m1), Factor(k2, m2), Factor(k3, m3), v);
  }

  lemma TimesZero(v: bv8)
    ensures GfMul(0, v) == 0
  {
    hide GfDouble;
    XorZero(0);
  }

  lemma GfMulOfSum(k: bv8, a: bv8, b: bv8, c: bv8, d: bv8)
    ensures GfMul(k, Xor4(a, b, c, d)) == Xor4(GfMul(k, a), GfMul(k, b), GfMul(k, c), GfMul(k, d))
  {
    hide GfMul;
    hide Xor;
    GfMulLinear(k, a, b);
    GfMulLinear(k, c, d);
    GfMulLinear(k, Xor(a, b), Xor(c, d));
  }

  // A row applied to a mixed column, regrouped by the bytes of the column.

  lemma DotOfMix(k0: bv8, k1: bv8, k2: bv8, k3: bv8, s: Column)
    ensures Dot(k0, k1, k2, k3, MixColumn(s))
         == Xor4(Xor4(GfMul(k0, GfMul(0x02, s[0])), GfMul(k1, GfMul(0x01, s[0])), GfMul(k2, GfMul(0x01, s[0])), GfMul(k3, GfMul(0x03, s[0]))),
                 Xor4(GfMul(k0, GfMul(0x03, s[1])), GfMul(k1, GfMul(0x02, s[1])), GfMul(k2, GfMul(0x01, s[1])), GfMul(k3, GfMul(0x01, s[1]))),
                 Xor4(GfMul(k0, GfMul(0x01, s[2])), GfMul(k1, GfMul(0x03, s[2])), GfMul(k2, GfMul(0x02, s[2])), GfMul(k3, GfMul(0x01, s[2]))),
                 Xor4(GfMul(k0, GfMul(0x01, s[3])), GfMul(k1, GfMul(0x01, s[3])), GfMul(k2, GfMul(0x03, s[3])), GfMul(k3, GfMul(0x02, s[3]))))
  {
    hide GfMul;
    hide Xor;
    hide Xor4;
    GfMulOfSum(k0, GfMul(0x02, s[0]), GfMul(0x03, s[1]), GfMul(0x01, s[2]), GfMul(0x01, s[3]));
    GfMulOfSum(k1, GfMul(0x01, s[0]), GfMul(0x02, s[1]), GfMul(0x03, s[2]), GfMul(0x01, s[3]));
    GfMulOfSum(k2, GfMul(0x01, s[0]), GfMul(0x01, s[1]), GfMul(0x02, s[2]), GfMul(0x03, s[3]));
    GfMulOfSum(k3, GfMul(0x03, s[0]), GfMul(0x01, s[1]), GfMul(0x01, s[2]), GfMul(0x02, s[3]));
    Transpose4(GfMul(k0, GfMul(0x02, s[0])), GfMul(k0, GfMul(0x03, s[1])), GfMul(k0, GfMul(0x01, s[2])), GfMul(k0, GfMul(0x01, s[3])),
               GfMul(k1, GfMul(0x01, s[0])), GfMul(k1, GfMul(0x02, s[1])), GfMul(k1, GfMul(0x03, s[2])), GfMul(k1, GfMul(0x01, s[3])),
               GfMul(k2, GfMul(0x01, s[0])), GfMul(k2, GfMul(0x01, s[1])), GfMul(k2, GfMul(0x02, s[2])), GfMul(k2, GfMul(0x03, s[3])),
               GfMul(k3, GfMul(0x03, s[0])), GfMul(k3, GfMul(0x01, s[1])), GfMul(k3, GfMul(0x01, s[2])), GfMul(k3, GfMul(0x02, s[3])));
  }

  lemma DotOfInvMix(k0: bv8, k1: bv8, k2: bv8, k3: bv8, s: Column)
    ensures Dot(k0, k1, k2, k3, InvMixColumn(s))
         == Xor4(Xor4(GfMul(k0, GfMul(0x0e, s[0])), GfMul(k1, GfMul(0x09, s[0])), GfMul(k2, GfMul(0x0d, s[0])), GfMul(k3, GfMul(0x0b, s[0]))),
                 Xor4(GfMul(k0, GfMul(0x0b, s[1])), GfMul(k1, GfMul(0x0e, s[1])), GfMul(k2, GfMul(0x09, s[1])), GfMul(k3, GfMul(0x0d, s[1]))),
                 Xor4(GfMul(k0, GfMul(0x0d, s[2])), GfMul(k1, GfMul(0x0b, s[2])), GfMul(k2, GfMul(0x0e, s[2])), GfMul(k3, GfMul(0x09, s[2]))),
                 Xor4(GfMul(k0, GfMul(0x09, s[3])), GfMul(k1, GfMul(0x0d, s[3])), GfMul(k2, GfMul(0x0b, s[3])), GfMul(k3, GfMul(0x0e, s[3]))))
  {
    hide GfMul;
    hide Xor;
    hide Xor4;
    GfMulOfSum(k0, GfMul(0x0e, s[0]), GfMul(0x0b, s[1]), GfMul(0x0d, s[2]), GfMul(0x09, s[3]));
    GfMulOfSum(k1, GfMul(0x09, s[0]), GfMul(0x0e, s[1]), GfMul(0x0b, s[2]), GfMul(0x0d, s[3]));
    GfMulOfSum(k2, GfMul(0x0d, s[0]), GfMul(0x09, s[1]), GfMul(0x0e, s[2]), GfMul(0x0b, s[3]));
    GfMulOfSum(k3, GfMul(0x0b, s[0]), GfMul(0x0d, s[1]), GfMul(0x09, s[2]), GfMul(0x0e, s[3]));
    Transpose4(GfMul(k0, GfMul(0x0e, s[0])), GfMul(k0, GfMul(0x0b, s[1])), GfMul(k0, GfMul(0x0d, s[2])), GfMul(k0, GfMul(0x09, s[3])),
               GfMul(k1, GfMul(0x09, s[0])), GfMul(k1, GfMul(0x0e, s[1])), GfMul(k1, GfMul(0x0b, s[2])), GfMul(k1, GfMul(0x0d, s[3])),
               GfMul(k2, GfMul(0x0d, s[0])), GfMul(k2, GfMul(0x09, s[1])), GfMul(k2, GfMul(0x0e, s[2])), GfMul(k2, GfMul(0x0b, s[3])),
               GfMul(k3, GfMul(0x0b, s[0])), GfMul(k3, GfMul(0x0d, s[1])), GfMul(k3, GfMul(0x09, s[2])), GfMul(k3, GfMul(0x0e, s[3])));
  }

  lemma InvMixOfMixRow0(s: Column)
    ensures Dot(0x0e, 0x0b, 0x0d, 0x09, MixColumn(s)) == s[0]
  {
    hide GfMul;
    hide Dot;
    hide MixColumn;
    DotOfMix(0x0e, 0x0b, 0x0d, 0x09, s);
    Entry(0x0e, 0x0b, 0x0d, 0x09, 0x02, 0x01, 0x01, 0x03, s[0]);
    Entry(0x0e, 0x0b, 0x0d, 0x09, 0x03, 0x02, 0x01, 0x01, s[1]);
    Entry(0x0e, 0x0b, 0x0d, 0x09, 0x01, 0x03, 0x02, 0x01, s[2]);
    Entry(0x0e, 0x0b, 0x0d, 0x09, 0x01, 0x01, 0x03, 0x02, s[3]);
    ProductsWithMix(s[0]);
    TimesZero(s[1]);
    TimesZero(s[2]);
    TimesZero(s[3]);
    XorZero(s[0]);
    XorZero(0);
  }

  lemma InvMixOfMixRow1(s: Column)
    ensures Dot(0x09, 0x0e, 0x0b, 0x0d, MixColumn(s)) == s[1]
  {
    hide GfMul;
    hide Dot;
    hide MixColumn;
    DotOfMix(0x09, 0x0e, 0x0b, 0x0d, s);
    Entry(0x09, 0x0e, 0x0b, 0x0d, 0x02, 0x01, 0x01, 0x03, s[0]);
    Entry(0x09, 0x0e, 0x0b, 0x0d, 0x03, 0x02, 0x01, 0x01, s[1]);
    Entry(0x09, 0x0e, 0x0b, 0x0d, 0x01, 0x03, 0x02, 0x01, s[2]);
    Entry(0x09, 0x0e, 0x0b, 0x0d, 0x01, 0x01, 0x03, 0x02, s[3]);
    ProductsWithMix(s[1]);
    TimesZero(s[0]);
    TimesZero(s[2]);
    TimesZero(s[3]);
    XorZero(s[1]);
    XorZero(0);
  }

  lemma InvMixOfMixRow2(s: Column)
    ensures Dot(0x0d, 0x09, 0x0e, 0x0b, MixColumn(s)) == s[2]
  {
    hide GfMul;
    hide Dot;
    hide MixColumn;
    DotOfMix(0x0d, 0x09, 0x0e, 0x0b, s);
    Entry(0x0d, 0x09, 0x0e, 0x0b, 0x02, 0x01, 0x01, 0x03, s[0]);
    Entry(0x0d, 0x09, 0x0e, 0x0b, 0x03, 0x02, 0x01, 0x01, s[1]);
    Entry(0x0d, 0x09, 0x0e, 0x0b, 0x01, 0x03, 0x02, 0x01, s[2]);
    Entry(0x0d, 0x09, 0x0e, 0x0b, 0x01, 0x01, 0x03, 0x02, s[3]);
    ProductsWithMix(s[2]);
    TimesZero(s[0]);
    TimesZero(s[1]);
    TimesZero(s[3]);
    XorZero(s[2]);
    XorZero(0);
  }

  lemma InvMixOfMixRow3(s: Column)
    ensures Dot(0x0b, 0x0d, 0x09, 0x0e, MixColumn(s)) == s[3]
  {
    hide GfMul;
    hide Dot;
    hide MixColumn;
    DotOfMix(0x0b, 0x0d, 0x09, 0x0e, s);
    Entry(0x0b, 0x0d, 0x09, 0x0e, 0x02, 0x01, 0x01, 0x03, s[0]);
    Entry(0x0b, 0x0d, 0x09, 0x0e, 0x03, 0x02, 0x01, 0x01, s[1]);
    Entry(0x0b, 0x0d, 0x09, 0x0e, 0x01, 0x03, 0x02, 0x01, s[2]);
    Entry(0x0b, 0x0d, 0x09, 0x0e, 0x01, 0x01, 0x03, 0x02, s[3]);
    ProductsWithMix(s[3]);
    TimesZero(s[0]);
    TimesZero(s[1]);
    TimesZero(s[2]);
    XorZero(s[3]);
    XorZero(0);
  }

  lemma InvMixOfMix(s: Column)
    ensures InvMixColumn(MixColumn(s)) == s
  {
    hide GfMul;
    hide Xor;
    hide Xor4;
    hide Dot;
    InvMixOfMixRow0(s);
    InvMixOfMixRow1(s);
    InvMixOfMixRow2(s);
    InvMixOfMixRow3(s);
  }

  lemma MixOfInvMixRow0(s: Column)
    ensures Dot(0x02, 0x03, 0x01, 0x01, InvMixColumn(s)) == s[0]
  {
    hide GfMul;
    hide Dot;
    hide InvMixColumn;
    DotOfInvMix(0x02, 0x03, 0x01, 0x01, s);
    Entry(0x0e, 0x09, 0x0d, 0x0b, 0x02, 0x03, 0x01, 0x01, s[0]);
    Entry(0x0b, 0x0e, 0x09, 0x0d, 0x02, 0x03, 0x01, 0x01, s[1]);
    Entry(0x0d, 0x0b, 0x0e, 0x09, 0x02, 0x03, 0x01, 0x01, s[2]);
    Entry(0x09, 0x0d, 0x0b, 0x0e, 0x02, 0x03, 0x01, 0x01, s[3]);
    ProductsWithMix(s[0]);
    TimesZero(s[1]);
    TimesZero(s[2]);
    TimesZero(s[3]);
    XorZero(s[0]);
    XorZero(0);
  }

  lemma MixOfInvMixRow1(s: Column)
    ensures Dot(0x01, 0x02, 0x03, 0x01, InvMixColumn(s)) == s[1]
  {
    hide GfMul;
    hide Dot;
    hide InvMixColumn;
    DotOfInvMix(0x01, 0x02, 0x03, 0x01, s);
    Entry(0x0e, 0x09, 0x0d, 0x0b, 0x01, 0x02, 0x03, 0x01, s[0]);
    Entry(0x0b, 0x0e, 0x09, 0x0d, 0x01, 0x02, 0x03, 0x01, s[1]);
    Entry(0x0d, 0x0b, 0x0e, 0x09, 0x01, 0x02, 0x03, 0x01, s[2]);
    Entry(0x09, 0x0d, 0x0b, 0x0e, 0x01, 0x02, 0x03, 0x01, s[3]);
    ProductsWithMix(s[1]);
    TimesZero(s[0]);
    TimesZero(s[2]);
    TimesZero(s[3]);
    XorZero(s[1]);
    XorZero(0);
  }

  lemma MixOfInvMixRow2(s: Column)
    ensures Dot(0x01, 0x01, 0x02, 0x03, InvMixColumn(s)) == s[2]
  {
    hide GfMul;
    hide Dot;
    hide InvMixColumn;
    DotOfInvMix(0x01, 0x01, 0x02, 0x03, s);
    Entry(0x0e, 0x09, 0x0d, 0x0b, 0x01, 0x01, 0x02, 0x03, s[0]);
    Entry(0x0b, 0x0e, 0x09, 0x0d, 0x01, 0x01, 0x02, 0x03, s[1]);
    Entry(0x0d, 0x0b, 0x0e, 0x09, 0x01, 0x01, 0x02, 0x03, s[2]);
    Entry(0x09, 0x0d, 0x0b, 0x0e, 0x01, 0x01, 0x02, 0x03, s[3]);
    ProductsWithMix(s[2]);
    TimesZero(s[0]);
    TimesZero(s[1]);
    TimesZero(s[3]);
    XorZero(s[2]);
    XorZero(0);
  }

  lemma MixOfInvMixRow3(s: Column)
    ensures Dot(0x03, 0x01, 0x01, 0x02, InvMixColumn(s)) == s[3]
  {
    hide GfMul;
    hide Dot;
    hide InvMixColumn;
    DotOfInvMix(0x03, 0x01, 0x01, 0x02, s);
    Entry(0x0e, 0x09, 0x0d, 0x0b, 0x03, 0x01, 0x01, 0x02, s[0]);
    Entry(0x0b, 0x0e, 0x09, 0x0d, 0x03, 0x01, 0x01, 0x02, s[1]);
    Entry(0x0d, 0x0b, 0x0e, 0x09, 0x03, 0x01, 0x01, 0x02, s[2]);
    Entry(0x09, 0x0d, 0x0b, 0x0e, 0x03, 0x01, 0x01, 0x02, s[3]);
    ProductsWithMix(s[3]);
    TimesZero(s[0]);
    TimesZero(s[1]);
    TimesZero(s[2]);
    XorZero(s[3]);
    XorZero(0);
  }

  lemma MixOfInvMix(s: Column)
    ensures MixColumn(InvMixColumn(s)) == s
  {
    hide GfMul;
    hide Xor;
    hide Xor4;
    hide Dot;
    MixOfInvMixRow0(s);
    MixOfInvMixRow1(s);
    MixOfInvMixRow2(s);
    MixOfInvMixRow3(s);
  }
}
