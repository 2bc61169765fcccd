/** AES-128 key expansion, section 5.2 of FIPS 197, and running it backwards. */
module AesKeys {
  import opened AesField
  import opened AesTables
  import opened AesColumns
  import opened AesCipher

  function RotWord(a: bv32): bv32 {
    (a >> 24) | (a << 8)
  }

  function SubByteAt(a: bv32, o: bv32): bv8
    requires o <= 24
  {
    SBox(((a >> o) & 0xff) as bv8)
  }

  function SubWord(a: bv32): bv32 {
    ((SubByteAt(a, 24) as bv32) << 24) | ((SubByteAt(a, 16) as bv32) << 16) |
    ((SubByteAt(a, 8) as bv32) << 8) | (SubByteAt(a, 0) as bv32)
  }

  /** The round constants, as the source tabulates them. */
  function Rconst(i: nat): bv32
    requires i <= 10
  {
    [0x00000000, 0x01000000, 0x02000000, 0x04000000, 0x08000000, 0x10000000,
     0x20000000, 0x40000000, 0x80000000, 0x1b000000, 0x36000000][i]
  }

  function Xor(a: bv32, b: bv32): bv32 {
    a ^ b
  }

  /** What is added to word `i - 4` to make word `i`, given word `i - 1`. */
  function Temp(t: bv32, i: nat): bv32
    requires i < 44
  {
    if i % NK == 0 then Xor(SubWord(RotWord(t)), Rconst(i / NK)) else t
  }

  /** Word `i` from words `i - 4` and `i - 1`. */
  function NextWord(far: bv32, near: bv32, i: nat): bv32
    requires i < 44
  {
    Xor(far, Temp(near, i))
  }

  function KeyWord(k: Block, i: nat): bv32
    requires i < NK
  {
    ((k[4 * i] as bv32) << 24) | ((k[4 * i + 1] as bv32) << 16) |
    ((k[4 * i + 2] as bv32) << 8) | (k[4 * i + 3] as bv32)
  }

  /** The first `n` words of the expanded key. */
  function Expand(k: Block, n: nat): (w: seq<bv32>)
    requires n <= 44
    ensures |w| == n
  {
    if n == 0 then
      []
    else
      var w := Expand(k, n - 1);
      w + [if n <= NK then KeyWord(k, n - 1) else NextWord(w[n - 1 - NK], w[n - 2], n - 1)]
  }

  function KeyExpansion(k: Block): Schedule {
    Expand(k, 44)
  }

  // ----- the word operations, byte by byte -----

  lemma RotWordRotates(a: bv32)
    ensures WordColumn(RotWord(a)) == WordColumn(a).Rotate()
  {
  }

  lemma SubWordSubstitutes(a: bv32)
    ensures WordColumn(SubWord(a)) == Column(SBox(WordColumn(a).b0), SBox(WordColumn(a).b1),
                                             SBox(WordColumn(a).b2), SBox(WordColumn(a).b3))
  {
    hide SBox;
  }

  /** The constants are the powers of x, each the double of the one before. */
  lemma RconstDoubles(i: nat)
    requires 1 <= i <= 10
    ensures WordColumn(Rconst(i)) == Column(if i == 1 then 1 else DoubleByte(WordColumn(Rconst(i - 1)).b0), 0, 0, 0)
  {
  }

  lemma KeyWordColumn(k: Block, i: nat)
    requires i < NK
    ensures WordColumn(KeyWord(k, i)) == ColumnOf(k, i)
  {
  }

  // ----- the recurrence -----

  ghost predicate IsSchedule(w: Schedule) {
    forall i | NK <= i < 44 :: w[i] == NextWord(w[i - NK], w[i - 1], i)
  }

  lemma {:induction false} ExpandPrefix(k: Block, m: nat, n: nat)
    requires m <= n <= 44
    ensures Expand(k, n)[..m] == Expand(k, m)
  {
    if m < n {
      ExpandPrefix(k, m, n - 1);
      assert Expand(k, n)[..n - 1] == Expand(k, n - 1);
      assert Expand(k, n)[..m] == Expand(k, n)[..n - 1][..m];
    }
  }

  /** The expanded key starts with the key and obeys the recurrence. */
  lemma ExpansionIsSchedule(k: Block)
    ensures IsSchedule(KeyExpansion(k))
    ensures forall i | 0 <= i < NK :: KeyExpansion(k)[i] == KeyWord(k, i)
  {
    hide NextWord, KeyWord;
    var w := KeyExpansion(k);
    forall i | 0 <= i < NK
      ensures w[i] == KeyWord(k, i)
    {
      ExpandPrefix(k, i + 1, 44);
      assert w[i] == Expand(k, i + 1)[i];
    }
    forall i | NK <= i < 44
      ensures w[i] == NextWord(w[i - NK], w[i - 1], i)
    {
      ExpandPrefix(k, i, 44);
      ExpandPrefix(k, i + 1, 44);
      assert w[i] == Expand(k, i + 1)[i];
    }
  }

  // ----- running the recurrence backwards -----

  /** Four consecutive words. */
  type Window = v: seq<bv32> | |v| == 4 witness [0, 0, 0, 0]

  /** The window at `i - 1`, from the window at `i`. */
  function StepBack(v: Window, i: nat): Window
    requires 1 <= i <= 40
  {
    [NextWord(v[3], v[2], i + 3)] + v[..3]
  }

  function FirstWindow(v: Window, i: nat): Window
    requires i <= 40
    decreases i
  {
    if i == 0 then v else FirstWindow(StepBack(v, i), i - 1)
  }

  /** The key, from the window at `i`. */
  function RecoverKey(v: Window, i: nat): Block
    requires i <= 40
  {
    seq(16, j requires 0 <= j < 16 => WordColumn(FirstWindow(v, i)[j / 4]).At(j % 4))
  }

  /** The recurrence is its own inverse. */
  lemma NextWordCancels(far: bv32, near: bv32, i: nat)
    requires i < 44
    ensures NextWord(NextWord(far, near, i), near, i) == far
  {
    hide Temp;
  }

  lemma StepsBack(w: Schedule, i: nat)
    requires IsSchedule(w) && 1 <= i <= 40
    ensures StepBack(w[i..i + 4], i) == w[i - 1..i + 3]
  {
    hide NextWord;
    NextWordCancels(w[i - 1], w[i + 2], i + 3);
    assert w[i + 3] == NextWord(w[i - 1], w[i + 2], i + 3);
    assert w[i..i + 4][..3] == w[i..i + 3];
    assert w[i - 1..i + 3] == [w[i - 1]] + w[i..i + 3];
  }

  lemma {:induction false} Rewinds(w: Schedule, i: nat)
    requires IsSchedule(w) && i <= 40
    ensures FirstWindow(w[i..i + 4], i) == w[..4]
  {
    hide StepBack;
    if i != 0 {
      StepsBack(w, i);
      Rewinds(w, i - 1);
    }
  }

  lemma {:induction false} SamePrefix(v: Schedule, w: Schedule, n: nat)
    requires IsSchedule(v) && IsSchedule(w) && v[..4] == w[..4] && n <= 44
    ensures v[..n] == w[..n]
  {
    hide NextWord;
    if n <= 4 {
      assert v[..n] == v[..4][..n] && w[..n] == w[..4][..n];
    } else {
      SamePrefix(v, w, n - 1);
      assert v[..n - 1][n - 1 - NK] == w[..n - 1][n - 1 - NK] && v[..n - 1][n - 2] == w[..n - 1][n - 2];
      assert v[..n] == v[..n - 1] + [v[n - 1]] && w[..n] == w[..n - 1] + [w[n - 1]];
    }
  }

  /** Any four consecutive words determine the whole schedule. */
  lemma WindowDeterminesSchedule(v: Schedule, w: Schedule, i: nat)
    requires IsSchedule(v) && IsSchedule(w) && i <= 40
    requires v[i..i + 4] == w[i..i + 4]
    ensures v == w
  {
    hide *;
    Rewinds(v, i);
    Rewinds(w, i);
    SamePrefix(v, w, 44);
    assert v[..44] == v && w[..44] == w;
  }

  /** Any four consecutive words of an expanded key give the key back. */
  lemma KeyRecovered(k: Block, i: nat)
    requires i <= 40
    ensures RecoverKey(KeyExpansion(k)[i..i + 4], i) == k
  {
    hide WordColumn, KeyWord, KeyExpansion, FirstWindow;
    var w := KeyExpansion(k);
    ExpansionIsSchedule(k);
    Rewinds(w, i);
    forall j | 0 <= j < 16
      ensures RecoverKey(w[i..i + 4], i)[j] == k[j]
    {
      KeyWordColumn(k, j / 4);
      assert w[..4][j / 4] == KeyWord(k, j / 4);
    }
  }

  /** Expansion is injective in the key. */
  lemma ExpansionInjective(k: Block, l: Block)
    requires KeyExpansion(k) == KeyExpansion(l)
    ensures k == l
  {
    hide *;
    KeyRecovered(k, 0);
    KeyRecovered(l, 0);
  }
}
