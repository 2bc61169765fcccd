/** MixColumns and its inverse on one column: matrix products over GF(2^8). */
module AesColumns {
  import opened AesField

  /** Four bytes: a column of the state, or the coefficients of a matrix row. */
  datatype Column = Column(b0: bv8, b1: bv8, b2: bv8, b3: bv8) {
    function At(row: nat): bv8
      requires row < 4
    {
      if row == 0 then b0 else if row == 1 then b1 else if row == 2 then b2 else b3
    }

    function Rotate(): Column {
      Column(b1, b2, b3, b0)
    }
  }

  /** A matrix row times a column. */
  function Dot(row: Column, col: Column): bv8 {
    Sum4(GfMul(row.b0, col.b0), GfMul(row.b1, col.b1), GfMul(row.b2, col.b2), GfMul(row.b3, col.b3))
  }

  /** Section 5.1.3 of FIPS 197. */
  function MixColumn(col: Column): Column {
    Column(Dot(Column(0x02, 0x03, 0x01, 0x01), col), Dot(Column(0x01, 0x02, 0x03, 0x01), col),
           Dot(Column(0x01, 0x01, 0x02, 0x03), col), Dot(Column(0x03, 0x01, 0x01, 0x02), col))
  }

  /** Section 5.3.3 of FIPS 197. */
  function InvMixColumn(col: Column): Column {
    Column(Dot(Column(0x0e, 0x0b, 0x0d, 0x09), col), Dot(Column(0x09, 0x0e, 0x0b, 0x0d), col),
           Dot(Column(0x0d, 0x09, 0x0e, 0x0b), col), Dot(Column(0x0b, 0x0d, 0x09, 0x0e), col))
  }

  /** `mult_row_column` of the encryptor, built from xtime. */
  function MultRowColumn(c: Column): Column {
    Column(Sum4(DoubleByte(c.b0), Triple(c.b1), c.b2, c.b3),
           Sum4(c.b0, DoubleByte(c.b1), Triple(c.b2), c.b3),
           Sum4(c.b0, c.b1, DoubleByte(c.b2), Triple(c.b3)),
           Sum4(Triple(c.b0), c.b1, c.b2, DoubleByte(c.b3)))
  }

  /** `mult_row_column` of the decryptor. */
  function InvMultRowColumn(c: Column): Column {
    Column(Sum4(MultE(c.b0), MultB(c.b1), MultD(c.b2), Mult9(c.b3)),
           Sum4(Mult9(c.b0), MultE(c.b1), MultB(c.b2), MultD(c.b3)),
           Sum4(MultD(c.b0), Mult9(c.b1), MultE(c.b2), MultB(c.b3)),
           Sum4(MultB(c.b0), MultD(c.b1), Mult9(c.b2), MultE(c.b3)))
  }

  lemma ColumnMacros(c: Column)
    ensures forall a | a in {c.b0, c.b1, c.b2, c.b3} ::
      && GfMul(0x01, a) == a && GfMul(0x02, a) == DoubleByte(a) && GfMul(0x03, a) == Triple(a)
      && GfMul(0x09, a) == Mult9(a) && GfMul(0x0b, a) == MultB(a)
      && GfMul(0x0d, a) == MultD(a) && GfMul(0x0e, a) == MultE(a)
  {
    hide *;
    MacrosMultiply(c.b0);
    MacrosMultiply(c.b1);
    MacrosMultiply(c.b2);
    MacrosMultiply(c.b3);
  }

  /** The xtime-built rows of both implementations are the matrix products of FIPS 197. */
  lemma RowsAreMatrixProducts(c: Column)
    ensures MultRowColumn(c) == MixColumn(c)
    ensures InvMultRowColumn(c) == InvMixColumn(c)
  {
    hide Add, Sum4, GfMul, DoubleByte, Triple, Mult9, MultB, MultD, MultE;
    ColumnMacros(c);
  }

  // ----- both matrices are circulant, so rotating the column rotates the product -----

  lemma DotRotates(row: Column, col: Column)
    ensures Dot(row.Rotate(), col.Rotate()) == Dot(row, col)
  {
    hide Add, Sum4, GfMul;
    Sum4Rotates(GfMul(row.b0, col.b0), GfMul(row.b1, col.b1), GfMul(row.b2, col.b2), GfMul(row.b3, col.b3));
  }

  lemma MixRotates(c: Column)
    ensures MixColumn(c.Rotate()) == MixColumn(c).Rotate()
  {
    hide Dot;
    DotRotates(Column(0x02, 0x03, 0x01, 0x01), c);
    DotRotates(Column(0x01, 0x02, 0x03, 0x01), c);
    DotRotates(Column(0x01, 0x01, 0x02, 0x03), c);
    DotRotates(Column(0x03, 0x01, 0x01, 0x02), c);
  }

  lemma InvMixRotates(c: Column)
    ensures InvMixColumn(c.Rotate()) == InvMixColumn(c).Rotate()
  {
    hide Dot;
    DotRotates(Column(0x0e, 0x0b, 0x0d, 0x09), c);
    DotRotates(Column(0x09, 0x0e, 0x0b, 0x0d), c);
    DotRotates(Column(0x0d, 0x09, 0x0e, 0x0b), c);
    DotRotates(Column(0x0b, 0x0d, 0x09, 0x0e), c);
  }

  // ----- the two circulant matrices are mutually inverse -----

  /** The four entries of a matrix column, each times `a`. */
  function Scale(m: Column, a: bv8): Column {
    Column(GfMul(m.b0, a), GfMul(m.b1, a), GfMul(m.b2, a), GfMul(m.b3, a))
  }

  ghost predicate Coefficients(row: Column) {
    forall k | 0 <= k < 4 :: row.At(k) in {0x01, 0x02, 0x03, 0x09, 0x0b, 0x0d, 0x0e}
  }

  /** A row times a matrix-vector product is the vector combined with the products of the row and
      the matrix columns. */
  lemma DotOfProduct(r: Column, m0: Column, m1: Column, m2: Column, m3: Column, c: Column)
    requires Coefficients(r)
    ensures Dot(r, Column(Dot(m0, c), Dot(m1, c), Dot(m2, c), Dot(m3, c)))
         == Sum4(Dot(r, Scale(Column(m0.b0, m1.b0, m2.b0, m3.b0), c.b0)),
                 Dot(r, Scale(Column(m0.b1, m1.b1, m2.b1, m3.b1), c.b1)),
                 Dot(r, Scale(Column(m0.b2, m1.b2, m2.b2, m3.b2), c.b2)),
                 Dot(r, Scale(Column(m0.b3, m1.b3, m2.b3, m3.b3), c.b3)))
  {
    hide Add, Sum4, GfMul;
    assert r.At(0) == r.b0 && r.At(1) == r.b1 && r.At(2) == r.b2 && r.At(3) == r.b3;
    Distributes(r.b0, GfMul(m0.b0, c.b0), GfMul(m0.b1, c.b1), GfMul(m0.b2, c.b2), GfMul(m0.b3, c.b3));
    Distributes(r.b1, GfMul(m1.b0, c.b0), GfMul(m1.b1, c.b1), GfMul(m1.b2, c.b2), GfMul(m1.b3, c.b3));
    Distributes(r.b2, GfMul(m2.b0, c.b0), GfMul(m2.b1, c.b1), GfMul(m2.b2, c.b2), GfMul(m2.b3, c.b3));
    Distributes(r.b3, GfMul(m3.b0, c.b0), GfMul(m3.b1, c.b1), GfMul(m3.b2, c.b2), GfMul(m3.b3, c.b3));
    SumTransposes(
      GfMul(r.b0, GfMul(m0.b0, c.b0)), GfMul(r.b0, GfMul(m0.b1, c.b1)),
      GfMul(r.b0, GfMul(m0.b2, c.b2)), GfMul(r.b0, GfMul(m0.b3, c.b3)),
      GfMul(r.b1, GfMul(m1.b0, c.b0)), GfMul(r.b1, GfMul(m1.b1, c.b1)),
      GfMul(r.b1, GfMul(m1.b2, c.b2)), GfMul(r.b1, GfMul(m1.b3, c.b3)),
      GfMul(r.b2, GfMul(m2.b0, c.b0)), GfMul(r.b2, GfMul(m2.b1, c.b1)),
      GfMul(r.b2, GfMul(m2.b2, c.b2)), GfMul(r.b2, GfMul(m2.b3, c.b3)),
      GfMul(r.b3, GfMul(m3.b0, c.b0)), GfMul(r.b3, GfMul(m3.b1, c.b1)),
      GfMul(r.b3, GfMul(m3.b2, c.b2)), GfMul(r.b3, GfMul(m3.b3, c.b3)));
  }

  // The first row of one matrix times each column of the other.
  lemma InverseRowTimesColumn0(a: bv8)
    ensures Dot(Column(0x0e, 0x0b, 0x0d, 0x09), Scale(Column(0x02, 0x01, 0x01, 0x03), a)) == a
  {
  }

  lemma InverseRowTimesColumn1(a: bv8)
    ensures Dot(Column(0x0e, 0x0b, 0x0d, 0x09), Scale(Column(0x03, 0x02, 0x01, 0x01), a)) == 0
  {
  }

  lemma InverseRowTimesColumn2(a: bv8)
    ensures Dot(Column(0x0e, 0x0b, 0x0d, 0x09), Scale(Column(0x01, 0x03, 0x02, 0x01), a)) == 0
  {
  }

  lemma InverseRowTimesColumn3(a: bv8)
    ensures Dot(Column(0x0e, 0x0b, 0x0d, 0x09), Scale(Column(0x01, 0x01, 0x03, 0x02), a)) == 0
  {
  }

  lemma ForwardRowTimesColumn0(a: bv8)
    ensures Dot(Column(0x02, 0x03, 0x01, 0x01), Scale(Column(0x0e, 0x09, 0x0d, 0x0b), a)) == a
  {
  }

  lemma ForwardRowTimesColumn1(a: bv8)
    ensures Dot(Column(0x02, 0x03, 0x01, 0x01), Scale(Column(0x0b, 0x0e, 0x09, 0x0d), a)) == 0
  {
  }

  lemma ForwardRowTimesColumn2(a: bv8)
    ensures Dot(Column(0x02, 0x03, 0x01, 0x01), Scale(Column(0x0d, 0x0b, 0x0e, 0x09), a)) == 0
  {
  }

  lemma ForwardRowTimesColumn3(a: bv8)
    ensures Dot(Column(0x02, 0x03, 0x01, 0x01), Scale(Column(0x09, 0x0d, 0x0b, 0x0e), a)) == 0
  {
  }

  lemma UnmixFirstByte(c: Column)
    ensures InvMixColumn(MixColumn(c)).b0 == c.b0
  {
    hide Add, Sum4, GfMul, Dot, Scale;
    DotOfProduct(Column(0x0e, 0x0b, 0x0d, 0x09), Column(0x02, 0x03, 0x01, 0x01), Column(0x01, 0x02, 0x03, 0x01),
                 Column(0x01, 0x01, 0x02, 0x03), Column(0x03, 0x01, 0x01, 0x02), c);
    InverseRowTimesColumn0(c.b0);
    InverseRowTimesColumn1(c.b1);
    InverseRowTimesColumn2(c.b2);
    InverseRowTimesColumn3(c.b3);
    AddZero(c.b0);
  }

  lemma RemixFirstByte(c: Column)
    ensures MixColumn(InvMixColumn(c)).b0 == c.b0
  {
    hide Add, Sum4, GfMul, Dot, Scale;
    DotOfProduct(Column(0x02, 0x03, 0x01, 0x01), Column(0x0e, 0x0b, 0x0d, 0x09), Column(0x09, 0x0e, 0x0b, 0x0d),
                 Column(0x0d, 0x09, 0x0e, 0x0b), Column(0x0b, 0x0d, 0x09, 0x0e), c);
    ForwardRowTimesColumn0(c.b0);
    ForwardRowTimesColumn1(c.b1);
    ForwardRowTimesColumn2(c.b2);
    ForwardRowTimesColumn3(c.b3);
    AddZero(c.b0);
  }

  lemma RotationsCommute(c: Column)
    ensures InvMixColumn(MixColumn(c.Rotate())) == InvMixColumn(MixColumn(c)).Rotate()
    ensures MixColumn(InvMixColumn(c.Rotate())) == MixColumn(InvMixColumn(c)).Rotate()
  {
    hide MixColumn, InvMixColumn;
    MixRotates(c);
    InvMixRotates(MixColumn(c));
    InvMixRotates(c);
    MixRotates(InvMixColumn(c));
  }

  /** The two matrices undo each other on every column. */
  lemma MixColumnInverse(c: Column)
    ensures InvMixColumn(MixColumn(c)) == c
    ensures MixColumn(InvMixColumn(c)) == c
  {
    hide MixColumn, InvMixColumn;
    var c1 := c.Rotate();
    var c2 := c1.Rotate();
    var c3 := c2.Rotate();
    RotationsCommute(c);
    RotationsCommute(c1);
    RotationsCommute(c2);
    UnmixFirstByte(c);
    UnmixFirstByte(c1);
    UnmixFirstByte(c2);
    UnmixFirstByte(c3);
    RemixFirstByte(c);
    RemixFirstByte(c1);
    RemixFirstByte(c2);
    RemixFirstByte(c3);
  }
}
