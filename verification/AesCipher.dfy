/** AES-128 on 16-byte blocks as FIPS 197 defines it, and the proof that the cipher and the inverse
    cipher undo each other under every key schedule. */
module AesCipher {
  import opened AesField
  import opened AesTables
  import opened AesColumns

  const NB := 4
  const NK := 4
  const NR := 10

  /** The state: byte `i` is in row `i % 4` of column `i / 4`. */
  type Block = s: seq<bv8> | |s| == 16 witness seq(16, i => 0)

  /** The expanded key, four words for each of the `NR + 1` round keys. */
  type Schedule = w: seq<bv32> | |w| == 44 witness seq(44, i => 0)

  function ColumnOf(s: Block, c: nat): Column
    requires c < 4
  {
    Column(s[4 * c], s[4 * c + 1], s[4 * c + 2], s[4 * c + 3])
  }

  /** The bytes of a word, most significant first. */
  function WordColumn(w: bv32): Column {
    Column((w >> 24) as bv8, ((w >> 16) & 0xff) as bv8, ((w >> 8) & 0xff) as bv8, (w & 0xff) as bv8)
  }

  // ----- the transformations, sections 5.1 and 5.3 of FIPS 197 -----

  function SubBytes(s: Block): Block {
    seq(16, i requires 0 <= i < 16 => SBox(s[i]))
  }

  function InvSubBytes(s: Block): Block {
    seq(16, i requires 0 <= i < 16 => InvSBox(s[i]))
  }

  /** Row `r` moves left by `r` columns. */
  function ShiftRows(s: Block): Block {
    seq(16, i requires 0 <= i < 16 => s[4 * ((i / 4 + i % 4) % 4) + i % 4])
  }

  /** Row `r` moves right by `r` columns. */
  function InvShiftRows(s: Block): Block {
    seq(16, i requires 0 <= i < 16 => s[4 * ((i / 4 + 4 - i % 4) % 4) + i % 4])
  }

  function MixColumns(s: Block): Block {
    seq(16, i requires 0 <= i < 16 => MixColumn(ColumnOf(s, i / 4)).At(i % 4))
  }

  function InvMixColumns(s: Block): Block {
    seq(16, i requires 0 <= i < 16 => InvMixColumn(ColumnOf(s, i / 4)).At(i % 4))
  }

  function AddColumns(x: Column, y: Column): Column {
    Column(Add(x.b0, y.b0), Add(x.b1, y.b1), Add(x.b2, y.b2), Add(x.b3, y.b3))
  }

  /** Word `c` of round key `r`, which is words `4r .. 4r + 4` of the schedule. */
  function KeyColumn(w: Schedule, r: nat, c: nat): Column
    requires r <= NR && c < 4
  {
    WordColumn(w[4 * r + c])
  }

  function AddRoundKey(s: Block, w: Schedule, r: nat): Block
    requires r <= NR
  {
    seq(16, i requires 0 <= i < 16 =>
      AddColumns(ColumnOf(s, i / 4), KeyColumn(w, r, i / 4)).At(i % 4))
  }

  // ----- section 5.1: the cipher; section 5.3: the inverse cipher -----

  /** The state after the first `n` full rounds of the cipher. */
  function EncryptRounds(s: Block, w: Schedule, n: nat): Block
    requires n < NR
  {
    if n == 0 then
      AddRoundKey(s, w, 0)
    else
      AddRoundKey(MixColumns(ShiftRows(SubBytes(EncryptRounds(s, w, n - 1)))), w, n)
  }

  function Cipher(s: Block, w: Schedule): Block {
    AddRoundKey(ShiftRows(SubBytes(EncryptRounds(s, w, NR - 1))), w, NR)
  }

  /** The state after the first `n` full rounds of the inverse cipher. */
  function DecryptRounds(s: Block, w: Schedule, n: nat): Block
    requires n < NR
  {
    if n == 0 then
      AddRoundKey(s, w, NR)
    else
      InvMixColumns(AddRoundKey(InvSubBytes(InvShiftRows(DecryptRounds(s, w, n - 1))), w, NR - n))
  }

  function InvCipher(s: Block, w: Schedule): Block {
    AddRoundKey(InvSubBytes(InvShiftRows(DecryptRounds(s, w, NR - 1))), w, 0)
  }

  // ----- every transformation is undone by its inverse -----

  lemma SubBytesInverse(s: Block)
    ensures InvSubBytes(SubBytes(s)) == s
    ensures SubBytes(InvSubBytes(s)) == s
  {
    hide SBox, InvSBox;
    forall i | 0 <= i < 16
      ensures InvSubBytes(SubBytes(s))[i] == s[i] && SubBytes(InvSubBytes(s))[i] == s[i]
    {
      SubstitutionInverse(s[i]);
    }
  }

  /** Byte `4 * c + r` of the state is in row `r` of column `c`. */
  lemma Position(c: nat, r: nat)
    requires c < 4 && r < 4
    ensures (4 * c + r) / 4 == c && (4 * c + r) % 4 == r
  {
  }

  /** Blocks with the same columns are the same. */
  lemma SameColumns(s: Block, t: Block)
    requires forall c: nat | c < 4 :: ColumnOf(s, c) == ColumnOf(t, c)
    ensures s == t
  {
    assert ColumnOf(s, 0) == ColumnOf(t, 0);
    assert ColumnOf(s, 1) == ColumnOf(t, 1);
    assert ColumnOf(s, 2) == ColumnOf(t, 2);
    assert ColumnOf(s, 3) == ColumnOf(t, 3);
    forall i | 0 <= i < 16
      ensures s[i] == t[i]
    {
    }
  }

  /** The permutations that the two implementations write out byte by byte. */
  lemma ShiftTables(s: Block)
    ensures ShiftRows(s) == [s[0], s[5], s[10], s[15], s[4], s[9], s[14], s[3],
                             s[8], s[13], s[2], s[7], s[12], s[1], s[6], s[11]]
    ensures InvShiftRows(s) == [s[0], s[13], s[10], s[7], s[4], s[1], s[14], s[11],
                                s[8], s[5], s[2], s[15], s[12], s[9], s[6], s[3]]
  {
  }

  lemma ShiftRowsInverse(s: Block)
    ensures InvShiftRows(ShiftRows(s)) == s
    ensures ShiftRows(InvShiftRows(s)) == s
  {
    hide ShiftRows, InvShiftRows;
    ShiftTables(s);
    ShiftTables(ShiftRows(s));
    ShiftTables(InvShiftRows(s));
  }

  lemma MixedColumn(s: Block, c: nat)
    requires c < 4
    ensures ColumnOf(MixColumns(s), c) == MixColumn(ColumnOf(s, c))
    ensures ColumnOf(InvMixColumns(s), c) == InvMixColumn(ColumnOf(s, c))
  {
    hide MixColumn, InvMixColumn;
    Position(c, 0);
    Position(c, 1);
    Position(c, 2);
    Position(c, 3);
  }

  lemma MixColumnsInverse(s: Block)
    ensures InvMixColumns(MixColumns(s)) == s
    ensures MixColumns(InvMixColumns(s)) == s
  {
    hide MixColumn, InvMixColumn, MixColumns, InvMixColumns, ColumnOf;
    forall c: nat | c < 4
      ensures ColumnOf(InvMixColumns(MixColumns(s)), c) == ColumnOf(s, c)
      ensures ColumnOf(MixColumns(InvMixColumns(s)), c) == ColumnOf(s, c)
    {
      MixedColumn(s, c);
      MixedColumn(MixColumns(s), c);
      MixedColumn(InvMixColumns(s), c);
      MixColumnInverse(ColumnOf(s, c));
    }
    SameColumns(InvMixColumns(MixColumns(s)), s);
    SameColumns(MixColumns(InvMixColumns(s)), s);
  }

  lemma RoundKeyColumn(s: Block, w: Schedule, r: nat, c: nat)
    requires r <= NR && c < 4
    ensures ColumnOf(AddRoundKey(s, w, r), c) == AddColumns(ColumnOf(s, c), KeyColumn(w, r, c))
  {
    hide AddColumns, KeyColumn;
    Position(c, 0);
    Position(c, 1);
    Position(c, 2);
    Position(c, 3);
  }

  lemma AddColumnsCancels(x: Column, k: Column)
    ensures AddColumns(AddColumns(x, k), k) == x
  {
    hide Add;
    AddCancels(x.b0, k.b0);
    AddCancels(x.b1, k.b1);
    AddCancels(x.b2, k.b2);
    AddCancels(x.b3, k.b3);
  }

  lemma AddRoundKeyInverse(s: Block, w: Schedule, r: nat)
    requires r <= NR
    ensures AddRoundKey(AddRoundKey(s, w, r), w, r) == s
  {
    hide AddColumns, KeyColumn, AddRoundKey, ColumnOf;
    var twice := AddRoundKey(AddRoundKey(s, w, r), w, r);
    forall c: nat | c < 4
      ensures ColumnOf(twice, c) == ColumnOf(s, c)
    {
      RoundKeyColumn(s, w, r, c);
      RoundKeyColumn(AddRoundKey(s, w, r), w, r, c);
      AddColumnsCancels(ColumnOf(s, c), KeyColumn(w, r, c));
    }
    SameColumns(twice, s);
  }

  // ----- inverse round i undoes round NR - i -----

  lemma {:induction false} DecryptTracksEncrypt(s: Block, w: Schedule, n: nat)
    requires n < NR
    ensures DecryptRounds(Cipher(s, w), w, n) == ShiftRows(SubBytes(EncryptRounds(s, w, NR - 1 - n)))
  {
    hide AddRoundKey, MixColumns, InvMixColumns, ShiftRows, InvShiftRows, SubBytes, InvSubBytes;
    if n == 0 {
      AddRoundKeyInverse(ShiftRows(SubBytes(EncryptRounds(s, w, NR - 1))), w, NR);
    } else {
      DecryptTracksEncrypt(s, w, n - 1);
      var later := EncryptRounds(s, w, NR - n);
      var earlier := EncryptRounds(s, w, NR - 1 - n);
      ShiftRowsInverse(SubBytes(later));
      SubBytesInverse(later);
      AddRoundKeyInverse(MixColumns(ShiftRows(SubBytes(earlier))), w, NR - n);
      MixColumnsInverse(ShiftRows(SubBytes(earlier)));
    }
  }

  lemma {:induction false} EncryptTracksDecrypt(s: Block, w: Schedule, n: nat)
    requires n < NR
    ensures EncryptRounds(InvCipher(s, w), w, n) == InvSubBytes(InvShiftRows(DecryptRounds(s, w, NR - 1 - n)))
  {
    hide AddRoundKey, MixColumns, InvMixColumns, ShiftRows, InvShiftRows, SubBytes, InvSubBytes;
    if n == 0 {
      AddRoundKeyInverse(InvSubBytes(InvShiftRows(DecryptRounds(s, w, NR - 1))), w, 0);
    } else {
      EncryptTracksDecrypt(s, w, n - 1);
      var later := DecryptRounds(s, w, NR - n);
      var earlier := DecryptRounds(s, w, NR - 1 - n);
      SubBytesInverse(InvShiftRows(later));
      ShiftRowsInverse(later);
      MixColumnsInverse(AddRoundKey(InvSubBytes(InvShiftRows(earlier)), w, n));
      AddRoundKeyInverse(InvSubBytes(InvShiftRows(earlier)), w, n);
    }
  }

  /** Decryption undoes encryption, for every block and every schedule. */
  lemma DecryptEncrypt(s: Block, w: Schedule)
    ensures InvCipher(Cipher(s, w), w) == s
  {
    hide AddRoundKey, ShiftRows, InvShiftRows, SubBytes, InvSubBytes;
    DecryptTracksEncrypt(s, w, NR - 1);
    var first := EncryptRounds(s, w, 0);
    ShiftRowsInverse(SubBytes(first));
    SubBytesInverse(first);
    AddRoundKeyInverse(s, w, 0);
  }

  /** Encryption undoes decryption, for every block and every schedule. */
  lemma EncryptDecrypt(s: Block, w: Schedule)
    ensures Cipher(InvCipher(s, w), w) == s
  {
    hide AddRoundKey, ShiftRows, InvShiftRows, SubBytes, InvSubBytes;
    EncryptTracksDecrypt(s, w, NR - 1);
    var first := DecryptRounds(s, w, 0);
    SubBytesInverse(InvShiftRows(first));
    ShiftRowsInverse(first);
    AddRoundKeyInverse(s, w, NR);
  }
}
