// Bytes as polynomials over GF(2) modulo x^8 + x^4 + x^3 + x + 1, the field of
// section 4 of FIPS 197, and the byte doubling the cipher is built from.
module Gf256 {

  // Addition in the field. Sums are kept in terms of Xor, hidden, so that
  // proofs rewrite them by congruence instead of bit by bit.
  function Xor(a: bv8, b: bv8): bv8 {
    a ^ b
  }

  function Xor4(a: bv8, b: bv8, c: bv8, d: bv8): bv8 {
    Xor(Xor(a, b), Xor(c, d))
  }

  // The source's GF_p8_mul3, which in spite of its name doubles.
  function GfDouble(val: bv8): bv8 {
    var x := val << 1;
    if val >= 0x80 then x ^ 0x1b else x
  }

  // t if the bit is set in a, and nothing otherwise.
  function Pick(a: bv8, bit: bv8, t: bv8): bv8 {
    if a & bit != 0 then t else 0
  }

  // The field product, bit by bit over a (section 4.2.1 of FIPS 197).
  function GfMul(a: bv8, b: bv8): bv8 {
    var b1 := GfDouble(b);
    var b2 := GfDouble(b1);
    var b3 := GfDouble(b2);
    var b4 := GfDouble(b3);
    var b5 := GfDouble(b4);
    var b6 := GfDouble(b5);
    var b7 := GfDouble(b6);
    Xor(Xor4(Pick(a, 0x01, b), Pick(a, 0x02, b1), Pick(a, 0x04, b2), Pick(a, 0x08, b3)),
        Xor4(Pick(a, 0x10, b4), Pick(a, 0x20, b5), Pick(a, 0x40, b6), Pick(a, 0x80, b7)))
  }

  lemma XorAssoc(a: bv8, b: bv8, c: bv8)
    ensures Xor(Xor(a, b), c) == Xor(a, Xor(b, c))
  {
  }

  lemma XorComm(a: bv8, b: bv8)
    ensures Xor(a, b) == Xor(b, a)
  {
  }

  lemma Interchange(a: bv8, b: bv8, c: bv8, d: bv8)
    ensures Xor(Xor(a, b), Xor(c, d)) == Xor(Xor(a, c), Xor(b, d))
  {
    hide Xor;
    XorAssoc(a, b, Xor(c, d));
    XorAssoc(b, c, d);
    XorComm(b, c);
    XorAssoc(c, b, d);
    XorAssoc(a, c, Xor(b, d));
  }

  lemma Interchange4(a: bv8, b: bv8, c: bv8, d: bv8, a': bv8, b': bv8, c': bv8, d': bv8)
    ensures Xor4(Xor(a, a'), Xor(b, b'), Xor(c, c'), Xor(d, d')) == Xor(Xor4(a, b, c, d), Xor4(a', b', c', d'))
  {
    hide Xor;
    Interchange(a, a', b, b');
    Interchange(c, c', d, d');
    Interchange(Xor(a, b), Xor(a', b'), Xor(c, d), Xor(c', d'));
  }

  lemma GfDoubleLinear(a: bv8, b: bv8)
    ensures GfDouble(Xor(a, b)) == Xor(GfDouble(a), GfDouble(b))
  {
    if a >= 0x80 {
      if b >= 0x80 {
      } else {
      }
    } else {
      if b >= 0x80 {
      } else {
      }
    }
  }

  lemma PickLinear(k: bv8, bit: bv8, a: bv8, b: bv8)
    ensures Pick(k, bit, Xor(a, b)) == Xor(Pick(k, bit, a), Pick(k, bit, b))
  {
  }

  // Multiplication by any byte distributes over addition.
  lemma GfMulLinear(k: bv8, a: bv8, b: bv8)
    ensures GfMul(k, Xor(a, b)) == Xor(GfMul(k, a), GfMul(k, b))
  {
    hide Xor;
    hide Xor4;
    hide GfDouble;
    hide Pick;
    var a1, b1 := GfDouble(a), GfDouble(b);
    var a2, b2 := GfDouble(a1), GfDouble(b1);
    var a3, b3 := GfDouble(a2), GfDouble(b2);
    var a4, b4 := GfDouble(a3), GfDouble(b3);
    var a5, b5 := GfDouble(a4), GfDouble(b4);
    var a6, b6 := GfDouble(a5), GfDouble(b5);
    var a7, b7 := GfDouble(a6), GfDouble(b6);
    GfDoubleLinear(a, b);
    GfDoubleLinear(a1, b1);
    GfDoubleLinear(a2, b2);
    GfDoubleLinear(a3, b3);
    GfDoubleLinear(a4, b4);
    GfDoubleLinear(a5, b5);
    GfDoubleLinear(a6, b6);
    PickLinear(k, 0x01, a, b);
    PickLinear(k, 0x02, a1, b1);
    PickLinear(k, 0x04, a2, b2);
    PickLinear(k, 0x08, a3, b3);
    PickLinear(k, 0x10, a4, b4);
    PickLinear(k, 0x20, a5, b5);
    PickLinear(k, 0x40, a6, b6);
    PickLinear(k, 0x80, a7, b7);
    Interchange4(Pick(k, 0x01, a), Pick(k, 0x02, a1), Pick(k, 0x04, a2), Pick(k, 0x08, a3),
                 Pick(k, 0x01, b), Pick(k, 0x02, b1), Pick(k, 0x04, b2), Pick(k, 0x08, b3));
    Interchange4(Pick(k, 0x10, a4), Pick(k, 0x20, a5), Pick(k, 0x40, a6), Pick(k, 0x80, a7),
                 Pick(k, 0x10, b4), Pick(k, 0x20, b5), Pick(k, 0x40, b6), Pick(k, 0x80, b7));
    Interchange(Xor4(Pick(k, 0x01, a), Pick(k, 0x02, a1), Pick(k, 0x04, a2), Pick(k, 0x08, a3)),
                Xor4(Pick(k, 0x01, b), Pick(k, 0x02, b1), Pick(k, 0x04, b2), Pick(k, 0x08, b3)),
                Xor4(Pick(k, 0x10, a4), Pick(k, 0x20, a5), Pick(k, 0x40, a6), Pick(k, 0x80, a7)),
                Xor4(Pick(k, 0x10, b4), Pick(k, 0x20, b5), Pick(k, 0x40, b6), Pick(k, 0x80, b7)));
  }

  lemma XorZero(x: bv8)
    ensures Xor(x, 0) == x
    ensures Xor(0, x) == x
    ensures Xor(x, x) == 0
  {
  }

  // Products with the bytes of the two column matrices, as sums of doublings.
  lemma ProductsWithMix(v: bv8)
    ensures GfMul(0x01, v) == v
    ensures GfMul(0x02, v) == GfDouble(v)
    ensures GfMul(0x03, v) == Xor(v, GfDouble(v))
  {
    hide GfDouble;
    hide Xor;
    forall x: bv8 ensures Xor(x, 0) == x { XorZero(x); }
    forall x: bv8 ensures Xor(0, x) == x { XorZero(x); }
  }

  lemma ProductsWithInvMix(v: bv8)
    ensures var d1 := GfDouble(v);
            var d2 := GfDouble(d1);
            var d3 := GfDouble(d2);
            && GfMul(0x09, v) == Xor(v, d3)
            && GfMul(0x0b, v) == Xor(Xor(v, d1), d3)
            && GfMul(0x0d, v) == Xor(v, Xor(d2, d3))
            && GfMul(0x0e, v) == Xor(d1, Xor(d2, d3))
  {
    hide GfDouble;
    hide Xor;
    forall x: bv8 ensures Xor(x, 0) == x { XorZero(x); }
    forall x: bv8 ensures Xor(0, x) == x { XorZero(x); }
  }

  lemma Rotate4(a: bv8, b: bv8, c: bv8, d: bv8)
    ensures Xor4(a, b, c, d) == Xor4(b, c, d, a)
  {
    hide Xor;
    XorComm(Xor(a, b), Xor(c, d));
    XorComm(c, d);
    XorComm(b, c);
    Interchange(a, b, c, d);
    Interchange(b, c, d, a);
    XorComm(d, a);
    XorComm(Xor(b, c), Xor(a, d));
    Interchange(a, d, b, c);
    XorComm(b, d);
    XorComm(a, c);
    XorComm(a, d);
  }

  lemma Transpose4(a0: bv8, a1: bv8, a2: bv8, a3: bv8, b0: bv8, b1: bv8, b2: bv8, b3: bv8,
                   c0: bv8, c1: bv8, c2: bv8, c3: bv8, d0: bv8, d1: bv8, d2: bv8, d3: bv8)
    ensures Xor4(Xor4(a0, a1, a2, a3), Xor4(b0, b1, b2, b3), Xor4(c0, c1, c2, c3), Xor4(d0, d1, d2, d3))
         == Xor4(Xor4(a0, b0, c0, d0), Xor4(a1, b1, c1, d1), Xor4(a2, b2, c2, d2), Xor4(a3, b3, c3, d3))
  {
    hide Xor;
    Interchange4(a0, a1, a2, a3, b0, b1, b2, b3);
    Interchange4(c0, c1, c2, c3, d0, d1, d2, d3);
    Interchange4(Xor(a0, b0), Xor(a1, b1), Xor(a2, b2), Xor(a3, b3),
                 Xor(c0, d0), Xor(c1, d1), Xor(c2, d2), Xor(c3, d3));
  }

  predicate IsBit(bit: bv8) {
    || bit == 0x01 || bit == 0x02 || bit == 0x04 || bit == 0x08
    || bit == 0x10 || bit == 0x20 || bit == 0x40 || bit == 0x80
  }

  lemma BitOfXor(a: bv8, b: bv8, bit: bv8)
    requires IsBit(bit)
    ensures (Xor(a, b) & bit != 0) == ((a & bit != 0) != (b & bit != 0))
  {
    if bit == 0x01 {
    } else if bit == 0x02 {
    } else if bit == 0x04 {
    } else if bit == 0x08 {
    } else if bit == 0x10 {
    } else if bit == 0x20 {
    } else if bit == 0x40 {
    } else {
      assert bit == 0x80;
    }
  }

  lemma PickLinearLeft(a: bv8, b: bv8, bit: bv8, t: bv8)
    requires IsBit(bit)
    ensures Pick(Xor(a, b), bit, t) == Xor(Pick(a, bit, t), Pick(b, bit, t))
  {
    hide Xor;
    BitOfXor(a, b, bit);
    XorZero(t);
    XorZero(0);
  }

  // Multiplication of any byte distributes over addition on the left, too.
  lemma GfMulLinearLeft(k: bv8, m: bv8, v: bv8)
    ensures GfMul(Xor(k, m), v) == Xor(GfMul(k, v), GfMul(m, v))
  {
    hide Xor;
    hide Xor4;
    hide GfDouble;
    hide Pick;
    var v1 := GfDouble(v);
    var v2 := GfDouble(v1);
    var v3 := GfDouble(v2);
    var v4 := GfDouble(v3);
    var v5 := GfDouble(v4);
    var v6 := GfDouble(v5);
    var v7 := GfDouble(v6);
    PickLinearLeft(k, m, 0x01, v);
    PickLinearLeft(k, m, 0x02, v1);
    PickLinearLeft(k, m, 0x04, v2);
    PickLinearLeft(k, m, 0x08, v3);
    PickLinearLeft(k, m, 0x10, v4);
    PickLinearLeft(k, m, 0x20, v5);
    PickLinearLeft(k, m, 0x40, v6);
    PickLinearLeft(k, m, 0x80, v7);
    Interchange4(Pick(k, 0x01, v), Pick(k, 0x02, v1), Pick(k, 0x04, v2), Pick(k, 0x08, v3),
                 Pick(m, 0x01, v), Pick(m, 0x02, v1), Pick(m, 0x04, v2), Pick(m, 0x08, v3));
    Interchange4(Pick(k, 0x10, v4), Pick(k, 0x20, v5), Pick(k, 0x40, v6), Pick(k, 0x80, v7),
                 Pick(m, 0x10, v4), Pick(m, 0x20, v5), Pick(m, 0x40, v6), Pick(m, 0x80, v7));
    Interchange(Xor4(Pick(k, 0x01, v), Pick(k, 0x02, v1), Pick(k, 0x04, v2), Pick(k, 0x08, v3)),
                Xor4(Pick(m, 0x01, v), Pick(m, 0x02, v1), Pick(m, 0x04, v2), Pick(m, 0x08, v3)),
                Xor4(Pick(k, 0x10, v4), Pick(k, 0x20, v5), Pick(k, 0x40, v6), Pick(k, 0x80, v7)),
                Xor4(Pick(m, 0x10, v4), Pick(m, 0x20, v5), Pick(m, 0x40, v6), Pick(m, 0x80, v7)));
  }

  lemma PickOfShift(k: bv8, t: bv8)
    requires k < 0x80
    ensures Pick(k << 1, 0x01, t) == 0
    ensures Pick(k << 1, 0x02, t) == Pick(k, 0x01, t)
    ensures Pick(k << 1, 0x04, t) == Pick(k, 0x02, t)
    ensures Pick(k << 1, 0x08, t) == Pick(k, 0x04, t)
    ensures Pick(k << 1, 0x10, t) == Pick(k, 0x08, t)
    ensures Pick(k << 1, 0x20, t) == Pick(k, 0x10, t)
    ensures Pick(k << 1, 0x40, t) == Pick(k, 0x20, t)
    ensures Pick(k << 1, 0x80, t) == Pick(k, 0x40, t)
    ensures Pick(k, 0x80, t) == 0
  {
  }

  // Doubling the right factor doubles the left one, while it has room.
  lemma GfMulOfDouble(k: bv8, v: bv8)
    requires k < 0x80
    ensures GfMul(k, GfDouble(v)) == GfMul(k << 1, v)
  {
    hide Xor;
    hide Xor4;
    hide GfDouble;
    hide Pick;
    var v1 := GfDouble(v);
    var v2 := GfDouble(v1);
    var v3 := GfDouble(v2);
    var v4 := GfDouble(v3);
    var v5 := GfDouble(v4);
    var v6 := GfDouble(v5);
    var v7 := GfDouble(v6);
    var p1, p2, p3, p4 := Pick(k, 0x01, v1), Pick(k, 0x02, v2), Pick(k, 0x04, v3), Pick(k, 0x08, v4);
    var p5, p6, p7 := Pick(k, 0x10, v5), Pick(k, 0x20, v6), Pick(k, 0x40, v7);
    PickOfShift(k, v);
    PickOfShift(k, v1);
    PickOfShift(k, v2);
    PickOfShift(k, v3);
    PickOfShift(k, v4);
    PickOfShift(k, v5);
    PickOfShift(k, v6);
    PickOfShift(k, v7);
    PickOfShift(k, GfDouble(v7));
    Rotate4(0, p1, p2, p3);
    Rotate4(p4, p5, p6, p7);
    Interchange4(p1, p2, p3, 0, p5, p6, p7, p4);
    Interchange4(p1, p2, p3, p4, p5, p6, p7, 0);
    XorComm(0, p4);
  }

  // Doubling commutes with multiplication by any byte.
  lemma DoubleOfGfMul(k: bv8, v: bv8)
    ensures GfDouble(GfMul(k, v)) == GfMul(k, GfDouble(v))
  {
    hide Xor;
    hide GfDouble;
    hide Pick;
    forall a: bv8, b: bv8 ensures GfDouble(Xor(a, b)) == Xor(GfDouble(a), GfDouble(b)) {
      GfDoubleLinear(a, b);
    }
    forall bit: bv8, t: bv8 ensures GfDouble(Pick(k, bit, t)) == Pick(k, bit, GfDouble(t)) {
      DoubleOfPick(k, bit, t);
    }
  }

  lemma DoubleOfPick(k: bv8, bit: bv8, t: bv8)
    ensures GfDouble(Pick(k, bit, t)) == Pick(k, bit, GfDouble(t))
  {
  }

  // Polynomials themselves, to say what GfMul means.

  function PolyXor(p: bv16, q: bv16): bv16 {
    p ^ q
  }

  function PolyPick(a: bv8, bit: bv8, p: bv16): bv16 {
    if a & bit != 0 then p else 0
  }

  // The product of two polynomials over GF(2), not reduced.
  function PolyMul(a: bv8, b: bv8): bv16 {
    var p := b as bv16;
    PolyXor(
      PolyXor(PolyXor(PolyPick(a, 0x01, p), PolyPick(a, 0x02, p << 1)),
              PolyXor(PolyPick(a, 0x04, p << 2), PolyPick(a, 0x08, p << 3))),
      PolyXor(PolyXor(PolyPick(a, 0x10, p << 4), PolyPick(a, 0x20, p << 5)),
              PolyXor(PolyPick(a, 0x40, p << 6), PolyPick(a, 0x80, p << 7))))
  }

  // One step of long division by x^8 + x^4 + x^3 + x + 1: m is the modulus shifted
  // so that its highest bit is the bit `top` to be cleared.
  function DivideStep(p: bv16, top: bv16, m: bv16): bv16 {
    if p & top != 0 then PolyXor(p, m) else p
  }

  function LowByte(p: bv16): bv8 {
    (p & 0xff) as bv8
  }

  // The remainder, from the highest bit a product can have down.
  function PolyMod(p: bv16): bv8 {
    var r := DivideStep(p, 0x4000, 0x46c0);
    var r := DivideStep(r, 0x2000, 0x2360);
    var r := DivideStep(r, 0x1000, 0x11b0);
    var r := DivideStep(r, 0x0800, 0x08d8);
    var r := DivideStep(r, 0x0400, 0x046c);
    var r := DivideStep(r, 0x0200, 0x0236);
    LowByte(DivideStep(r, 0x0100, 0x011b))
  }

  lemma PolyXorOnce(a: bv16, b: bv16, m: bv16)
    ensures PolyXor(PolyXor(a, b), m) == PolyXor(PolyXor(a, m), b)
    ensures PolyXor(PolyXor(a, b), m) == PolyXor(a, PolyXor(b, m))
    ensures PolyXor(PolyXor(a, m), PolyXor(b, m)) == PolyXor(a, b)
  {
  }

  // The bits a product can have above its low byte.
  predicate IsHighBit(top: bv16) {
    || top == 0x4000 || top == 0x2000 || top == 0x1000 || top == 0x0800
    || top == 0x0400 || top == 0x0200 || top == 0x0100
  }

  lemma HighBitOfXor(p: bv16, q: bv16, top: bv16)
    requires IsHighBit(top)
    ensures (PolyXor(p, q) & top != 0) == ((p & top != 0) != (q & top != 0))
  {
    if top == 0x4000 {
    } else if top == 0x2000 {
    } else if top == 0x1000 {
    } else if top == 0x0800 {
    } else if top == 0x0400 {
    } else if top == 0x0200 {
    } else {
      assert top == 0x0100;
    }
  }

  lemma DivideStepLinear(p: bv16, q: bv16, top: bv16, m: bv16)
    requires IsHighBit(top)
    ensures DivideStep(PolyXor(p, q), top, m) == PolyXor(DivideStep(p, top, m), DivideStep(q, top, m))
  {
    hide PolyXor;
    HighBitOfXor(p, q, top);
    PolyXorOnce(p, q, m);
  }

  lemma LowByteLinear(p: bv16, q: bv16)
    ensures LowByte(PolyXor(p, q)) == Xor(LowByte(p), LowByte(q))
  {
  }

  lemma PolyModLinear(p: bv16, q: bv16)
    ensures PolyMod(PolyXor(p, q)) == Xor(PolyMod(p), PolyMod(q))
  {
    hide Xor;
    hide PolyXor;
    hide DivideStep;
    hide LowByte;
    var p6, q6 := DivideStep(p, 0x4000, 0x46c0), DivideStep(q, 0x4000, 0x46c0);
    var p5, q5 := DivideStep(p6, 0x2000, 0x2360), DivideStep(q6, 0x2000, 0x2360);
    var p4, q4 := DivideStep(p5, 0x1000, 0x11b0), DivideStep(q5, 0x1000, 0x11b0);
    var p3, q3 := DivideStep(p4, 0x0800, 0x08d8), DivideStep(q4, 0x0800, 0x08d8);
    var p2, q2 := DivideStep(p3, 0x0400, 0x046c), DivideStep(q3, 0x0400, 0x046c);
    var p1, q1 := DivideStep(p2, 0x0200, 0x0236), DivideStep(q2, 0x0200, 0x0236);
    DivideStepLinear(p, q, 0x4000, 0x46c0);
    DivideStepLinear(p6, q6, 0x2000, 0x2360);
    DivideStepLinear(p5, q5, 0x1000, 0x11b0);
    DivideStepLinear(p4, q4, 0x0800, 0x08d8);
    DivideStepLinear(p3, q3, 0x0400, 0x046c);
    DivideStepLinear(p2, q2, 0x0200, 0x0236);
    DivideStepLinear(p1, q1, 0x0100, 0x011b);
    LowByteLinear(DivideStep(p1, 0x0100, 0x011b), DivideStep(q1, 0x0100, 0x011b));
  }

  lemma PolyModOfPick(a: bv8, bit: bv8, p: bv16)
    ensures PolyMod(PolyPick(a, bit, p)) == Pick(a, bit, PolyMod(p))
  {
  }

  // Reducing b times x^n is doubling b n times.
  lemma PolyModOfShift0(b: bv8)
    ensures PolyMod(b as bv16) == b
  {
  }

  lemma PolyModOfShift1(b: bv8)
    ensures PolyMod(b as bv16 << 1) == GfDouble(b)
  {
  }

  lemma PolyModOfShift2(b: bv8)
    ensures PolyMod(b as bv16 << 2) == GfDouble(GfDouble(b))
  {
  }

  lemma PolyModOfShift3(b: bv8)
    ensures PolyMod(b as bv16 << 3) == GfDouble(GfDouble(GfDouble(b)))
  {
  }

  lemma PolyModOfShift4(b: bv8)
    ensures PolyMod(b as bv16 << 4) == GfDouble(GfDouble(GfDouble(GfDouble(b))))
  {
  }

  lemma PolyModOfShift5(b: bv8)
    ensures PolyMod(b as bv16 << 5) == GfDouble(GfDouble(GfDouble(GfDouble(GfDouble(b)))))
  {
  }

  lemma PolyModOfShift6(b: bv8)
    ensures PolyMod(b as bv16 << 6) == GfDouble(GfDouble(GfDouble(GfDouble(GfDouble(GfDouble(b))))))
  {
  }

  lemma PolyModOfShift7(b: bv8)
    ensures PolyMod(b as bv16 << 7) == GfDouble(GfDouble(GfDouble(GfDouble(GfDouble(GfDouble(GfDouble(b)))))))
  {
  }

  // GfMul is multiplication of polynomials followed by reduction.
  lemma GfMulIsReducedProduct(a: bv8, b: bv8)
    ensures GfMul(a, b) == PolyMod(PolyMul(a, b))
  {
    hide Xor;
    hide PolyXor;
    hide Pick;
    hide PolyPick;
    hide GfDouble;
    hide PolyMod;
    var p := b as bv16;
    PolyModOfShift0(b);
    PolyModOfShift1(b);
    PolyModOfShift2(b);
    PolyModOfShift3(b);
    PolyModOfShift4(b);
    PolyModOfShift5(b);
    PolyModOfShift6(b);
    PolyModOfShift7(b);
    PolyModOfPick(a, 0x01, p);
    PolyModOfPick(a, 0x02, p << 1);
    PolyModOfPick(a, 0x04, p << 2);
    PolyModOfPick(a, 0x08, p << 3);
    PolyModOfPick(a, 0x10, p << 4);
    PolyModOfPick(a, 0x20, p << 5);
    PolyModOfPick(a, 0x40, p << 6);
    PolyModOfPick(a, 0x80, p << 7);
    forall p: bv16, q: bv16 ensures PolyMod(PolyXor(p, q)) == Xor(PolyMod(p), PolyMod(q)) {
      PolyModLinear(p, q);
    }
  }
}
