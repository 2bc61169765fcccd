/** AES-128 as FIPS 197 writes it down, byte by byte with every index spelled out, and the proof that the cipher and
    the key expansion compute exactly that. */
module AesStandard {
  import opened AesField
  import opened AesTables
  import opened AesColumns
  import opened AesCipher
  import opened AesKeys

  // ----- section 5.1.4: which words of the schedule are added where -----

  /** Byte `r` of a word, the most significant being byte 0. */
  function WordByte(w: bv32, r: nat): bv8
    requires r < 4
  {
    if r == 0 then ((w >> 24) & 0xff) as bv8
    else if r == 1 then ((w >> 16) & 0xff) as bv8
    else if r == 2 then ((w >> 8) & 0xff) as bv8
    else (w & 0xff) as bv8
  }

  lemma WordBytes(w: bv32, r: nat)
    requires r < 4
    ensures WordColumn(w).At(r) == WordByte(w, r)
  {
  }

  /** Byte `i` of the sum with round key `n` uses word `4n + i / 4`. */
  lemma AddedByte(s: Block, w: Schedule, n: nat, i: nat)
    requires n <= 10 && i < 16
    ensures AddRoundKey(s, w, n)[i] == Add(s[i], WordByte(w[4 * n + i / 4], i % 4))
  {
    WordBytes(w[4 * n + i / 4], i % 4);
    hide WordColumn, WordByte, Add;
    assert ColumnOf(s, i / 4).At(i % 4) == s[i];
    AtOfSum(ColumnOf(s, i / 4), WordColumn(w[4 * n + i / 4]), i % 4);
  }

  lemma AtOfSum(x: Column, y: Column, r: nat)
    requires r < 4
    ensures AddColumns(x, y).At(r) == Add(x.At(r), y.At(r))
  {
    hide Add;
  }

  // ----- section 5.1: the cipher -----

  /** Row `k` of column `c` after the substitution and the row shift. */
  function Shifted(s: Block, c: nat, k: nat): bv8
    requires c < 4 && k < 4
  {
    SBox(s[4 * ((c + k) % 4) + k])
  }

  /** Row `r` of column `c` after the columns are mixed: a product with the circulant matrix of 02 03 01 01. */
  function Mixed(s: Block, c: nat, r: nat): bv8
    requires c < 4 && r < 4
  {
    Sum4(GfMul(0x02, Shifted(s, c, r)), GfMul(0x03, Shifted(s, c, (r + 1) % 4)),
         Shifted(s, c, (r + 2) % 4), Shifted(s, c, (r + 3) % 4))
  }

  /** The state after round `n`; the last round does not mix. */
  function Rounds(s: Block, w: Schedule, n: nat): Block
    requires n <= 10
  {
    if n == 0 then
      seq(16, i requires 0 <= i < 16 => Add(s[i], WordByte(w[i / 4], i % 4)))
    else
      var t := Rounds(s, w, n - 1);
      seq(16, i requires 0 <= i < 16 =>
        Add(if n == 10 then Shifted(t, i / 4, i % 4) else Mixed(t, i / 4, i % 4),
            WordByte(w[4 * n + i / 4], i % 4)))
  }

  lemma ShiftedByte(s: Block, i: nat)
    requires i < 16
    ensures ShiftRows(SubBytes(s))[i] == Shifted(s, i / 4, i % 4)
  {
    hide SBox;
  }

  lemma OneTimes(a: bv8)
    ensures GfMul(0x01, a) == a
  {
    DoubleMultiplies(a);
  }

  lemma MixedByte(s: Block, i: nat)
    requires i < 16
    ensures MixColumns(ShiftRows(SubBytes(s)))[i] == Mixed(s, i / 4, i % 4)
  {
    hide SBox, GfMul, Shifted, ShiftRows, SubBytes, Sum4;
    var t, c, r := ShiftRows(SubBytes(s)), i / 4, i % 4;
    var col := ColumnOf(t, c);
    forall k: nat | k < 4
      ensures col.At(k) == Shifted(s, c, k) && GfMul(0x01, col.At(k)) == col.At(k)
    {
      Position(c, k);
      ShiftedByte(s, 4 * c + k);
      OneTimes(col.At(k));
    }
    MixedRow(col, r);
  }

  lemma MixedRow(col: Column, r: nat)
    requires r < 4 && forall k: nat | k < 4 :: GfMul(0x01, col.At(k)) == col.At(k)
    ensures MixColumn(col).At(r)
         == Sum4(GfMul(0x02, col.At(r)), GfMul(0x03, col.At((r + 1) % 4)), col.At((r + 2) % 4), col.At((r + 3) % 4))
  {
    hide GfMul, Sum4, Add;
    assert col.At(0) == col.b0 && col.At(1) == col.b1 && col.At(2) == col.b2 && col.At(3) == col.b3;
    assert GfMul(0x01, col.At(0)) == col.b0 && GfMul(0x01, col.At(1)) == col.b1;
    assert GfMul(0x01, col.At(2)) == col.b2 && GfMul(0x01, col.At(3)) == col.b3;
    var p, q := GfMul(0x02, col.At(r)), GfMul(0x03, col.At((r + 1) % 4));
    var t, u := col.At((r + 2) % 4), col.At((r + 3) % 4);
    Sum4Rotates(p, q, t, u);
    Sum4Rotates(q, t, u, p);
    Sum4Rotates(t, u, p, q);
  }

  lemma {:induction false} RoundsAreStandard(s: Block, w: Schedule, n: nat)
    requires n < 10
    ensures EncryptRounds(s, w, n) == Rounds(s, w, n)
  {
    hide AddRoundKey, MixColumns, ShiftRows, SubBytes, Mixed, Shifted, WordByte, Add;
    var u := EncryptRounds(s, w, n);
    if n == 0 {
      forall i: nat | i < 16
        ensures u[i] == Rounds(s, w, 0)[i]
      {
        AddedByte(s, w, 0, i);
      }
    } else {
      RoundsAreStandard(s, w, n - 1);
      var t := Rounds(s, w, n - 1);
      forall i: nat | i < 16
        ensures u[i] == Rounds(s, w, n)[i]
      {
        MixedByte(t, i);
        AddedByte(MixColumns(ShiftRows(SubBytes(t))), w, n, i);
      }
    }
  }

  /** The cipher is the ten rounds of the standard: round key `n`, words `4n` to `4n + 3`, is added after round `n`. */
  lemma CipherIsStandard(s: Block, w: Schedule)
    ensures Cipher(s, w) == Rounds(s, w, 10)
  {
    hide AddRoundKey, ShiftRows, SubBytes, Shifted, WordByte, EncryptRounds, Add, Rounds;
    RoundsAreStandard(s, w, 9);
    var t, u := Rounds(s, w, 9), Cipher(s, w);
    forall i: nat | i < 16
      ensures u[i] == Rounds(s, w, 10)[i]
    {
      LastByte(s, w, i);
      ShiftedByte(t, i);
      AddedByte(ShiftRows(SubBytes(t)), w, 10, i);
    }
  }

  lemma LastByte(s: Block, w: Schedule, i: nat)
    requires i < 16
    ensures Rounds(s, w, 10)[i] == Add(Shifted(Rounds(s, w, 9), i / 4, i % 4), WordByte(w[40 + i / 4], i % 4))
  {
    hide Shifted, Mixed, WordByte, Add;
  }

  /** The inverse cipher finds the one block that the standard enciphers to its input. */
  lemma InverseIsStandard(s: Block, w: Schedule)
    ensures Rounds(InvCipher(s, w), w, 10) == s
  {
    hide Cipher, InvCipher, Rounds;
    EncryptDecrypt(s, w);
    CipherIsStandard(InvCipher(s, w), w);
  }

  // ----- section 5.2: the key expansion -----

  /** x to the power of `n`: 1 doubled `n` times. */
  function Power(n: nat): bv8 {
    if n == 0 then 0x01 else GfMul(0x02, Power(n - 1))
  }

  /** Word `i` of the schedule, as bytes, from words `i - 4` and `i - 1`. */
  function Standard(far: Column, near: Column, i: nat): Column
    requires 4 <= i < 44
  {
    if i % 4 != 0 then
      Column(Add(far.b0, near.b0), Add(far.b1, near.b1), Add(far.b2, near.b2), Add(far.b3, near.b3))
    else
      Column(Add(far.b0, Add(SBox(near.b1), Power(i / 4 - 1))), Add(far.b1, SBox(near.b2)),
             Add(far.b2, SBox(near.b3)), Add(far.b3, SBox(near.b0)))
  }

  lemma XorColumns(a: bv32, b: bv32)
    ensures WordColumn(Xor(a, b)) == AddColumns(WordColumn(a), WordColumn(b))
  {
  }

  lemma NextWordXors(far: bv32, near: bv32, i: nat)
    requires 4 <= i < 44
    ensures NextWord(far, near, i)
         == Xor(far, if i % 4 == 0 then Xor(SubWord(RotWord(near)), Rconst(i / 4)) else near)
  {
    hide SubWord, RotWord, Rconst, Xor;
  }

  lemma {:induction false} RconstIsPower(i: nat)
    requires 1 <= i <= 10
    ensures WordColumn(Rconst(i)) == Column(Power(i - 1), 0, 0, 0)
  {
    hide Rconst, GfMul, DoubleByte;
    RconstDoubles(i);
    if i > 1 {
      RconstIsPower(i - 1);
      DoubleMultiplies(Power(i - 2));
    }
  }

  lemma NextWordIsStandard(far: bv32, near: bv32, i: nat)
    requires 4 <= i < 44
    ensures WordColumn(NextWord(far, near, i)) == Standard(WordColumn(far), WordColumn(near), i)
  {
    hide SubWord, RotWord, Rconst, WordColumn, SBox, Power, Add, Xor, NextWord;
    NextWordXors(far, near, i);
    if i % 4 != 0 {
      XorColumns(far, near);
    } else {
      var sub := SubWord(RotWord(near));
      XorColumns(far, Xor(sub, Rconst(i / 4)));
      XorColumns(sub, Rconst(i / 4));
      RotWordRotates(near);
      SubWordSubstitutes(RotWord(near));
      RconstIsPower(i / 4);
      XorWithZero(WordColumn(far), WordColumn(sub), Power(i / 4 - 1));
    }
  }

  lemma XorWithZero(far: Column, sub: Column, rc: bv8)
    ensures AddColumns(far, AddColumns(sub, Column(rc, 0, 0, 0)))
         == Column(Add(far.b0, Add(sub.b0, rc)), Add(far.b1, sub.b1), Add(far.b2, sub.b2), Add(far.b3, sub.b3))
  {
    hide Add;
    PlusZero(sub.b1);
    PlusZero(sub.b2);
    PlusZero(sub.b3);
  }

  lemma PlusZero(a: bv8)
    ensures Add(a, 0) == a
  {
  }

  /** Word `i` of an expanded key, byte by byte. */
  ghost predicate IsStandardWord(w: Schedule, k: Block, i: nat)
    requires i < 44
  {
    WordColumn(w[i]) ==
      if i < 4 then Column(k[4 * i], k[4 * i + 1], k[4 * i + 2], k[4 * i + 3])
      else Standard(WordColumn(w[i - 4]), WordColumn(w[i - 1]), i)
  }

  ghost predicate IsStandardExpansion(w: Schedule, k: Block) {
    forall i: nat | i < 44 :: IsStandardWord(w, k, i)
  }

  lemma ExpansionIsStandard(k: Block)
    ensures IsStandardExpansion(KeyExpansion(k), k)
  {
    hide KeyExpansion, NextWord, KeyWord, WordColumn, Standard;
    ExpansionIsSchedule(k);
    var w := KeyExpansion(k);
    forall i: nat | i < 44
      ensures IsStandardWord(w, k, i)
    {
      if i < 4 {
        assert w[i] == KeyWord(k, i);
        KeyWordColumn(k, i);
      } else {
        assert w[i] == NextWord(w[i - 4], w[i - 1], i);
        NextWordIsStandard(w[i - 4], w[i - 1], i);
      }
    }
  }
}
