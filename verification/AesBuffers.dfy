/** The AES routines of tinycrypt: byte and word buffers rewritten in place. */
module AesBuffers {
  import opened AesField
  import opened AesTables
  import opened AesColumns
  import opened AesCipher
  import opened AesKeys
  import opened AesStandard

  const TC_CRYPTO_SUCCESS := 1

  /** `tc_aes_key_sched_struct`. */
  class KeySched {
    const words: array<bv32>

    constructor ()
      ensures fresh(words) && words.Length == 44
    {
      words := new bv32[44];
    }
  }

  /** `s->words[i]` for the first four words. */
  method LoadWord(k: array<bv8>, i: nat) returns (w: bv32)
    requires k.Length == 16 && i < NK
    ensures w == KeyWord(k[..], i)
  {
    w := ((k[NB * i] as bv32) << 24) | ((k[NB * i + 1] as bv32) << 16) |
         ((k[NB * i + 2] as bv32) << 8) | (k[NB * i + 3] as bv32);
  }

  method LaterWord(words: array<bv32>, i: nat) returns (w: bv32)
    requires words.Length == 44 && NK <= i < 44
    ensures w == NextWord(words[i - NK], words[i - 1], i)
  {
    hide SubWord, RotWord, Rconst;
    var t := words[i - 1];
    if i % NK == 0 {
      t := SubWord(RotWord(t)) ^ Rconst(i / NK);
    }
    w := words[i - NK] ^ t;
  }

  method SetEncryptKey(s: KeySched, k: array<bv8>) returns (rc: int)
    requires s.words.Length == 44 && k.Length == 16
    modifies s.words
    ensures s.words[..] == KeyExpansion(k[..])
    ensures IsStandardExpansion(s.words[..], k[..])
    ensures rc == TC_CRYPTO_SUCCESS
  {
    hide NextWord, KeyWord, IsStandardExpansion;
    var i := 0;
    while i < NK
      invariant 0 <= i <= NK
      invariant s.words[..i] == Expand(k[..], i)
    {
      s.words[i] := LoadWord(k, i);
      i := i + 1;
    }
    while i < NB * (NR + 1)
      invariant NK <= i <= 44
      invariant s.words[..i] == Expand(k[..], i)
    {
      s.words[i] := LaterWord(s.words, i);
      i := i + 1;
    }
    assert s.words[..] == s.words[..44];
    ExpansionIsStandard(k[..]);
    rc := TC_CRYPTO_SUCCESS;
  }

  /** Adds one word of the key to one column. */
  method AddWordTo(s: array<bv8>, c: nat, w: bv32)
    requires s.Length == 16 && c < 4
    modifies s
    ensures ColumnOf(s[..], c) == AddColumns(old(ColumnOf(s[..], c)), WordColumn(w))
    ensures forall d: nat | d < 4 && d != c :: ColumnOf(s[..], d) == old(ColumnOf(s[..], d))
  {
    hide Add, WordColumn;
    var o, k := 4 * c, WordColumn(w);
    s[o] := Add(s[o], k.b0);
    s[o + 1] := Add(s[o + 1], k.b1);
    s[o + 2] := Add(s[o + 2], k.b2);
    s[o + 3] := Add(s[o + 3], k.b3);
  }

  /** Adds round key `r`: the words from `4 * r` on. */
  method AddRoundKeyTo(s: array<bv8>, words: array<bv32>, r: nat)
    requires s.Length == 16 && words.Length == 44 && r <= NR
    modifies s
    ensures s[..] == AddRoundKey(old(s[..]), words[..], r)
    ensures forall i: nat | i < 16 :: s[i] == Add(old(s[i]), WordByte(words[4 * r + i / 4], i % 4))
  {
    hide WordByte, Add, WordColumn, ColumnOf, AddColumns, AddRoundKey;
    AddWordTo(s, 0, words[NB * r]);
    AddWordTo(s, 1, words[NB * r + 1]);
    AddWordTo(s, 2, words[NB * r + 2]);
    AddWordTo(s, 3, words[NB * r + 3]);
    ghost var sum := AddRoundKey(old(s[..]), words[..], r);
    forall c: nat | c < 4
      ensures ColumnOf(s[..], c) == ColumnOf(sum, c)
    {
      RoundKeyColumn(old(s[..]), words[..], r, c);
    }
    SameColumns(s[..], sum);
    forall i: nat | i < 16
      ensures s[i] == Add(old(s[i]), WordByte(words[4 * r + i / 4], i % 4))
    {
      AddedByte(old(s[..]), words[..], r, i);
      assert s[i] == s[..][i];
    }
  }

  method SubBytesIn(s: array<bv8>)
    requires s.Length == 16
    modifies s
    ensures s[..] == SubBytes(old(s[..]))
  {
    hide SBox;
    var i := 0;
    while i < NB * NK
      invariant 0 <= i <= 16
      invariant forall j | 0 <= j < 16 :: s[j] == if j < i then SBox(old(s[j])) else old(s[j])
    {
      s[i] := SBox(s[i]);
      i := i + 1;
    }
  }

  method InvSubBytesIn(s: array<bv8>)
    requires s.Length == 16
    modifies s
    ensures s[..] == InvSubBytes(old(s[..]))
  {
    hide InvSBox;
    var i := 0;
    while i < NB * NK
      invariant 0 <= i <= 16
      invariant forall j | 0 <= j < 16 :: s[j] == if j < i then InvSBox(old(s[j])) else old(s[j])
    {
      s[i] := InvSBox(s[i]);
      i := i + 1;
    }
  }

  method Copy(to: array<bv8>, from: array<bv8>)
    requires to.Length == 16 && from.Length == 16
    modifies to
    ensures to[..] == old(from[..])
  {
    forall i | 0 <= i < 16 {
      to[i] := from[i];
    }
  }

  method ShiftRowsIn(s: array<bv8>)
    requires s.Length == 16
    modifies s
    ensures s[..] == ShiftRows(old(s[..]))
  {
    hide ShiftRows, InvShiftRows;
    ghost var shifted := ShiftRows(s[..]);
    ShiftTables(s[..]);
    var t := new bv8[16] [s[0], s[5], s[10], s[15], s[4], s[9], s[14], s[3],
                          s[8], s[13], s[2], s[7], s[12], s[1], s[6], s[11]];
    assert t[..] == shifted;
    Copy(s, t);
  }

  method InvShiftRowsIn(s: array<bv8>)
    requires s.Length == 16
    modifies s
    ensures s[..] == InvShiftRows(old(s[..]))
  {
    hide ShiftRows, InvShiftRows;
    ghost var shifted := InvShiftRows(s[..]);
    ShiftTables(s[..]);
    var t := new bv8[16] [s[0], s[13], s[10], s[7], s[4], s[1], s[14], s[11],
                          s[8], s[5], s[2], s[15], s[12], s[9], s[6], s[3]];
    assert t[..] == shifted;
    Copy(s, t);
  }

  /** `mult_row_column` on column `c` of `s`, into the same column of `t`. */
  method MultRowColumnInto(t: array<bv8>, s: array<bv8>, c: nat)
    requires t != s && t.Length == 16 && s.Length == 16 && c < 4
    modifies t
    ensures ColumnOf(t[..], c) == MixColumn(ColumnOf(s[..], c))
    ensures forall d: nat | d < 4 && d != c :: ColumnOf(t[..], d) == old(ColumnOf(t[..], d))
  {
    var o := 4 * c;
    RowsAreMatrixProducts(ColumnOf(s[..], c));
    hide MixColumn, Sum4, DoubleByte, Triple, Mult9, MultB, MultD, MultE;
    t[o] := Sum4(DoubleByte(s[o]), Triple(s[o + 1]), s[o + 2], s[o + 3]);
    t[o + 1] := Sum4(s[o], DoubleByte(s[o + 1]), Triple(s[o + 2]), s[o + 3]);
    t[o + 2] := Sum4(s[o], s[o + 1], DoubleByte(s[o + 2]), Triple(s[o + 3]));
    t[o + 3] := Sum4(Triple(s[o]), s[o + 1], s[o + 2], DoubleByte(s[o + 3]));
  }

  method MixColumnsIn(s: array<bv8>)
    requires s.Length == 16
    modifies s
    ensures s[..] == MixColumns(old(s[..]))
  {
    hide MixColumn, ColumnOf, MixColumns;
    var t := new bv8[16];
    ghost var mixed := MixColumns(s[..]);
    MultRowColumnInto(t, s, 0);
    MultRowColumnInto(t, s, 1);
    MultRowColumnInto(t, s, 2);
    MultRowColumnInto(t, s, 3);
    forall c: nat | c < 4
      ensures ColumnOf(t[..], c) == ColumnOf(mixed, c)
    {
      MixedColumn(s[..], c);
    }
    SameColumns(t[..], mixed);
    Copy(s, t);
  }

  /** `mult_row_column` on column `c` of `s`, into the same column of `t`. */
  method InvMultRowColumnInto(t: array<bv8>, s: array<bv8>, c: nat)
    requires t != s && t.Length == 16 && s.Length == 16 && c < 4
    modifies t
    ensures ColumnOf(t[..], c) == InvMixColumn(ColumnOf(s[..], c))
    ensures forall d: nat | d < 4 && d != c :: ColumnOf(t[..], d) == old(ColumnOf(t[..], d))
  {
    var o := 4 * c;
    RowsAreMatrixProducts(ColumnOf(s[..], c));
    hide InvMixColumn, Sum4, DoubleByte, Triple, Mult9, MultB, MultD, MultE;
    t[o] := Sum4(MultE(s[o]), MultB(s[o + 1]), MultD(s[o + 2]), Mult9(s[o + 3]));
    t[o + 1] := Sum4(Mult9(s[o]), MultE(s[o + 1]), MultB(s[o + 2]), MultD(s[o + 3]));
    t[o + 2] := Sum4(MultD(s[o]), Mult9(s[o + 1]), MultE(s[o + 2]), MultB(s[o + 3]));
    t[o + 3] := Sum4(MultB(s[o]), MultD(s[o + 1]), Mult9(s[o + 2]), MultE(s[o + 3]));
  }

  method InvMixColumnsIn(s: array<bv8>)
    requires s.Length == 16
    modifies s
    ensures s[..] == InvMixColumns(old(s[..]))
  {
    hide InvMixColumn, ColumnOf, InvMixColumns;
    var t := new bv8[16];
    ghost var mixed := InvMixColumns(s[..]);
    InvMultRowColumnInto(t, s, 0);
    InvMultRowColumnInto(t, s, 1);
    InvMultRowColumnInto(t, s, 2);
    InvMultRowColumnInto(t, s, 3);
    forall c: nat | c < 4
      ensures ColumnOf(t[..], c) == ColumnOf(mixed, c)
    {
      MixedColumn(s[..], c);
    }
    SameColumns(t[..], mixed);
    Copy(s, t);
  }

  /** `tc_aes_encrypt`; the output buffer may be the input buffer. */
  method Encrypt(out: array<bv8>, input: array<bv8>, s: KeySched) returns (rc: int)
    requires out.Length == 16 && input.Length == 16 && s.words.Length == 44
    modifies out
    ensures out[..] == Cipher(old(input[..]), s.words[..])
    ensures out[..] == Rounds(old(input[..]), s.words[..], 10)
    ensures rc == TC_CRYPTO_SUCCESS
  {
    hide AddRoundKey, MixColumns, ShiftRows, SubBytes, Rounds;
    ghost var block, w := input[..], s.words[..];
    CipherIsStandard(block, w);
    var state := new bv8[16];
    Copy(state, input);
    AddRoundKeyTo(state, s.words, 0);
    var i := 0;
    while i < NR - 1
      invariant 0 <= i <= NR - 1
      invariant fresh(state) && s.words[..] == w
      invariant state[..] == EncryptRounds(block, w, i)
    {
      SubBytesIn(state);
      ShiftRowsIn(state);
      MixColumnsIn(state);
      AddRoundKeyTo(state, s.words, i + 1);
      i := i + 1;
    }
    SubBytesIn(state);
    ShiftRowsIn(state);
    AddRoundKeyTo(state, s.words, i + 1);
    Copy(out, state);
    rc := TC_CRYPTO_SUCCESS;
  }

  /** `tc_aes_decrypt`; the output buffer may be the input buffer. */
  method Decrypt(out: array<bv8>, input: array<bv8>, s: KeySched) returns (rc: int)
    requires out.Length == 16 && input.Length == 16 && s.words.Length == 44
    modifies out
    ensures out[..] == InvCipher(old(input[..]), s.words[..])
    ensures Rounds(out[..], s.words[..], 10) == old(input[..])
    ensures rc == TC_CRYPTO_SUCCESS
  {
    hide AddRoundKey, InvMixColumns, InvShiftRows, InvSubBytes, Rounds;
    ghost var block, w := input[..], s.words[..];
    InverseIsStandard(block, w);
    var state := new bv8[16];
    Copy(state, input);
    AddRoundKeyTo(state, s.words, NR);
    var i := NR - 1;
    while i > 0
      invariant 0 <= i <= NR - 1
      invariant fresh(state) && s.words[..] == w
      invariant state[..] == DecryptRounds(block, w, NR - 1 - i)
    {
      InvShiftRowsIn(state);
      InvSubBytesIn(state);
      AddRoundKeyTo(state, s.words, i);
      InvMixColumnsIn(state);
      i := i - 1;
    }
    InvShiftRowsIn(state);
    InvSubBytesIn(state);
    AddRoundKeyTo(state, s.words, 0);
    Copy(out, state);
    rc := TC_CRYPTO_SUCCESS;
  }

  /** Under one expanded key, decryption in place restores what encryption in place replaced, and
      the other way around. */
  method RoundTrips(key: array<bv8>, one: array<bv8>, other: array<bv8>)
    requires key.Length == 16 && one.Length == 16 && other.Length == 16 && one != other
    requires key != one && key != other
    modifies one, other
    ensures one[..] == old(one[..]) && other[..] == old(other[..])
  {
    hide *;
    var s := new KeySched();
    var rc := SetEncryptKey(s, key);
    DecryptEncrypt(one[..], s.words[..]);
    rc := Encrypt(one, one, s);
    rc := Decrypt(one, one, s);
    EncryptDecrypt(other[..], s.words[..]);
    rc := Decrypt(other, other, s);
    rc := Encrypt(other, other, s);
  }
}
