/** Arithmetic in GF(2^8), section 4 of FIPS 197. */
module AesField {

  /** Addition, section 4.1 of FIPS 197. */
  function Add(a: bv8, b: bv8): bv8 { a ^ b }

  function Sum4(p: bv8, q: bv8, r: bv8, s: bv8): bv8 {
    Add(Add(p, q), Add(r, s))
  }

  /** The product of two polynomials over GF(2), not reduced. */
  function PolyMul(c: bv8, a: bv8): bv16 {
    var x := a as bv16;
    (if c & 0x01 != 0 then x      else 0) ^ (if c & 0x02 != 0 then x << 1 else 0) ^
    (if c & 0x04 != 0 then x << 2 else 0) ^ (if c & 0x08 != 0 then x << 3 else 0) ^
    (if c & 0x10 != 0 then x << 4 else 0) ^ (if c & 0x20 != 0 then x << 5 else 0) ^
    (if c & 0x40 != 0 then x << 6 else 0) ^ (if c & 0x80 != 0 then x << 7 else 0)
  }

  /** The remainder modulo x^8 + x^4 + x^3 + x + 1, by long division from the top coefficient. */
  function Reduce(p: bv16): bv8 {
    var p6 := p ^ (((p >> 14) & 1) * (0x11b << 6));
    var p5 := p6 ^ (((p6 >> 13) & 1) * (0x11b << 5));
    var p4 := p5 ^ (((p5 >> 12) & 1) * (0x11b << 4));
    var p3 := p4 ^ (((p4 >> 11) & 1) * (0x11b << 3));
    var p2 := p3 ^ (((p3 >> 10) & 1) * (0x11b << 2));
    var p1 := p2 ^ (((p2 >> 9) & 1) * (0x11b << 1));
    var p0 := p1 ^ (((p1 >> 8) & 1) * 0x11b);
    (p0 & 0x00ff) as bv8
  }

  /** Multiplication, section 4.2 of FIPS 197. */
  function GfMul(c: bv8, a: bv8): bv8 {
    Reduce(PolyMul(c, a))
  }

  /** `_double_byte`, the xtime of section 4.2.1 of FIPS 197. */
  function DoubleByte(a: bv8): bv8 {
    (a << 1) ^ ((a >> 7) * 0x1b)
  }

  // The macros of the two MixColumns implementations.
  function Triple(a: bv8): bv8 { Add(DoubleByte(a), a) }
  function Mult4(a: bv8): bv8 { DoubleByte(DoubleByte(a)) }
  function Mult8(a: bv8): bv8 { DoubleByte(DoubleByte(DoubleByte(a))) }
  function Mult9(a: bv8): bv8 { Add(Mult8(a), a) }
  function MultB(a: bv8): bv8 { Add(Add(Mult8(a), DoubleByte(a)), a) }
  function MultD(a: bv8): bv8 { Add(Add(Mult8(a), Mult4(a)), a) }
  function MultE(a: bv8): bv8 { Add(Add(Mult8(a), Mult4(a)), DoubleByte(a)) }

  // Each macro multiplies by the constant in its name.
  lemma DoubleMultiplies(a: bv8)
    ensures GfMul(0x01, a) == a && GfMul(0x02, a) == DoubleByte(a)
  {
  }

  lemma TripleMultiplies(a: bv8)
    ensures GfMul(0x03, a) == Triple(a)
  {
  }

  lemma Mult9Multiplies(a: bv8)
    ensures GfMul(0x09, a) == Mult9(a)
  {
  }

  lemma MultBMultiplies(a: bv8)
    ensures GfMul(0x0b, a) == MultB(a)
  {
  }

  lemma MultDMultiplies(a: bv8)
    ensures GfMul(0x0d, a) == MultD(a)
  {
  }

  lemma MultEMultiplies(a: bv8)
    ensures GfMul(0x0e, a) == MultE(a)
  {
  }

  // ----- addition is a commutative group -----

  lemma AddCommutes(a: bv8, b: bv8)
    ensures Add(a, b) == Add(b, a)
  {
  }

  lemma AddAssociates(a: bv8, b: bv8, c: bv8)
    ensures Add(Add(a, b), c) == Add(a, Add(b, c))
  {
  }

  lemma Regroup(a: bv8, b: bv8, c: bv8, d: bv8)
    ensures Add(Add(a, b), Add(c, d)) == Add(Add(a, c), Add(b, d))
  {
    hide Add;
    AddAssociates(a, b, Add(c, d));
    AddAssociates(b, c, d);
    AddCommutes(b, c);
    AddAssociates(c, b, d);
    AddAssociates(a, c, Add(b, d));
  }

  lemma Sum4Rotates(p: bv8, q: bv8, r: bv8, s: bv8)
    ensures Sum4(p, q, r, s) == Sum4(q, r, s, p)
  {
    hide Add;
    AddCommutes(p, q);
    Regroup(q, p, r, s);
    AddCommutes(p, s);
  }

  lemma Sum4Adds(a0: bv8, a1: bv8, a2: bv8, a3: bv8, b0: bv8, b1: bv8, b2: bv8, b3: bv8)
    ensures Add(Sum4(a0, a1, a2, a3), Sum4(b0, b1, b2, b3))
         == Sum4(Add(a0, b0), Add(a1, b1), Add(a2, b2), Add(a3, b3))
  {
    hide Add;
    Regroup(Add(a0, a1), Add(a2, a3), Add(b0, b1), Add(b2, b3));
    Regroup(a0, a1, b0, b1);
    Regroup(a2, a3, b2, b3);
  }

  /** A four by four sum may be added by rows or by columns. */
  lemma SumTransposes(a0: bv8, a1: bv8, a2: bv8, a3: bv8, b0: bv8, b1: bv8, b2: bv8, b3: bv8,
                      c0: bv8, c1: bv8, c2: bv8, c3: bv8, d0: bv8, d1: bv8, d2: bv8, d3: bv8)
    ensures Sum4(Sum4(a0, a1, a2, a3), Sum4(b0, b1, b2, b3), Sum4(c0, c1, c2, c3), Sum4(d0, d1, d2, d3))
         == Sum4(Sum4(a0, b0, c0, d0), Sum4(a1, b1, c1, d1), Sum4(a2, b2, c2, d2), Sum4(a3, b3, c3, d3))
  {
    hide Add;
    Sum4Adds(a0, a1, a2, a3, b0, b1, b2, b3);
    Sum4Adds(c0, c1, c2, c3, d0, d1, d2, d3);
    Sum4Adds(Add(a0, b0), Add(a1, b1), Add(a2, b2), Add(a3, b3),
             Add(c0, d0), Add(c1, d1), Add(c2, d2), Add(c3, d3));
  }

  // ----- multiplication by a constant is additive -----

  lemma DoubleAdditive(a: bv8, b: bv8)
    ensures DoubleByte(Add(a, b)) == Add(DoubleByte(a), DoubleByte(b))
  {
  }

  lemma Mult8Additive(a: bv8, b: bv8)
    ensures Mult4(Add(a, b)) == Add(Mult4(a), Mult4(b))
    ensures Mult8(Add(a, b)) == Add(Mult8(a), Mult8(b))
  {
    hide Add, DoubleByte;
    DoubleAdditive(a, b);
    DoubleAdditive(DoubleByte(a), DoubleByte(b));
    DoubleAdditive(Mult4(a), Mult4(b));
  }

  lemma MacrosAdditive(a: bv8, b: bv8)
    ensures Triple(Add(a, b)) == Add(Triple(a), Triple(b))
    ensures Mult9(Add(a, b)) == Add(Mult9(a), Mult9(b))
    ensures MultB(Add(a, b)) == Add(MultB(a), MultB(b))
    ensures MultD(Add(a, b)) == Add(MultD(a), MultD(b))
    ensures MultE(Add(a, b)) == Add(MultE(a), MultE(b))
  {
    hide Add, DoubleByte, Mult4, Mult8;
    DoubleAdditive(a, b);
    Mult8Additive(a, b);
    Regroup(DoubleByte(a), DoubleByte(b), a, b);
    Regroup(Mult8(a), Mult8(b), a, b);
    Regroup(Mult8(a), Mult8(b), DoubleByte(a), DoubleByte(b));
    Regroup(Add(Mult8(a), DoubleByte(a)), Add(Mult8(b), DoubleByte(b)), a, b);
    Regroup(Mult8(a), Mult8(b), Mult4(a), Mult4(b));
    Regroup(Add(Mult8(a), Mult4(a)), Add(Mult8(b), Mult4(b)), a, b);
    Regroup(Add(Mult8(a), Mult4(a)), Add(Mult8(b), Mult4(b)), DoubleByte(a), DoubleByte(b));
  }

  /** Multiplication by every constant of the two matrices distributes over a sum. */
  lemma Distributes(c: bv8, p: bv8, q: bv8, r: bv8, s: bv8)
    requires c in {0x01, 0x02, 0x03, 0x09, 0x0b, 0x0d, 0x0e}
    ensures GfMul(c, Sum4(p, q, r, s)) == Sum4(GfMul(c, p), GfMul(c, q), GfMul(c, r), GfMul(c, s))
  {
    hide Add, GfMul;
    DistributesOverAdd(c, p, q);
    DistributesOverAdd(c, r, s);
    DistributesOverAdd(c, Add(p, q), Add(r, s));
  }

  lemma DistributesOverAdd(c: bv8, a: bv8, b: bv8)
    requires c in {0x01, 0x02, 0x03, 0x09, 0x0b, 0x0d, 0x0e}
    ensures GfMul(c, Add(a, b)) == Add(GfMul(c, a), GfMul(c, b))
  {
    hide Add, GfMul, DoubleByte, Triple, Mult9, MultB, MultD, MultE;
    MacrosMultiply(a);
    MacrosMultiply(b);
    MacrosMultiply(Add(a, b));
    DoubleAdditive(a, b);
    MacrosAdditive(a, b);
  }

  /** Every macro multiplies by its constant. */
  lemma MacrosMultiply(a: bv8)
    ensures GfMul(0x01, a) == a && GfMul(0x02, a) == DoubleByte(a) && GfMul(0x03, a) == Triple(a)
    ensures GfMul(0x09, a) == Mult9(a) && GfMul(0x0b, a) == MultB(a)
    ensures GfMul(0x0d, a) == MultD(a) && GfMul(0x0e, a) == MultE(a)
  {
    hide *;
    DoubleMultiplies(a);
    TripleMultiplies(a);
    Mult9Multiplies(a);
    MultBMultiplies(a);
    MultDMultiplies(a);
    MultEMultiplies(a);
  }

  lemma AddCancels(a: bv8, k: bv8)
    ensures Add(Add(a, k), k) == a
  {
  }

  lemma AddZero(a: bv8)
    ensures Sum4(a, 0, 0, 0) == a
  {
  }
}
