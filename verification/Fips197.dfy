/**
 The cipher of section 5.1 of FIPS 197 as the standard states it, byte by byte: what each transformation does to the
 byte in row r of column c, and in which order they come. bench/aes.c computes this relation and no other.
 */
module Fips197 {
  import opened Aes

  /** Byte r of a word. */
  function WordByte(w: Column, r: nat): bv8 {
    match r
    case 0 => w.a
    case 1 => w.b
    case 2 => w.c
    case _ => w.d
  }

  function ColumnOf(s: Block, c: nat): Column {
    match c
    case 0 => s.c0
    case 1 => s.c1
    case 2 => s.c2
    case _ => s.c3
  }

  /** The byte in row r of column c. */
  function Cell(s: Block, r: nat, c: nat): bv8 {
    WordByte(ColumnOf(s, c), r)
  }

  /** Section 5.1.1; Aes.SboxIs says what the table is. */
  ghost predicate Subbed(s: Block, t: Block) {
    forall r: nat, c: nat | r < 4 && c < 4 :: Cell(t, r, c) == Sbox(Cell(s, r, c))
  }

  /** Section 5.1.2: row r turns left by r places. */
  ghost predicate Shifted(s: Block, t: Block) {
    forall r: nat, c: nat | r < 4 && c < 4 :: Cell(t, r, c) == Cell(s, r, (c + r) % 4)
  }

  /** Section 5.1.3: in row r, 2, 3, 1 and 1 times the bytes of the column from r on. */
  function MixedByte(v: Column, r: nat): bv8 {
    Xor4(GfMul(WordByte(v, r), 2), GfMul(WordByte(v, (r + 1) % 4), 3), WordByte(v, (r + 2) % 4),
        WordByte(v, (r + 3) % 4))
  }

  ghost predicate Mixed(s: Block, t: Block) {
    forall r: nat, c: nat | r < 4 && c < 4 :: Cell(t, r, c) == MixedByte(ColumnOf(s, c), r)
  }

  /** Section 5.1.4: words 4 round to 4 round + 3 of the schedule, one for each column. */
  ghost predicate Keyed(s: Block, w: seq<Column>, round: nat, t: Block)
    requires 4 * round + 4 <= |w|
  {
    forall r: nat, c: nat | r < 4 && c < 4 :: Cell(t, r, c) == Xor(Cell(s, r, c), WordByte(w[4 * round + c], r))
  }

  /** t is the state after the first n rounds. */
  ghost predicate Through(s: Block, w: seq<Column>, n: nat, t: Block)
    requires 4 * n + 4 <= |w|
  {
    if n == 0 then Keyed(s, w, 0, t)
    else exists u, x, y, z ::
      Through(s, w, n - 1, u) && Subbed(u, x) && Shifted(x, y) && Mixed(y, z) && Keyed(z, w, n, t)
  }

  /** The last round is without MixColumns. */
  ghost predicate Ciphers(s: Block, w: seq<Column>, nr: nat, t: Block)
    requires nr >= 1 && 4 * nr + 4 <= |w|
  {
    exists u, x, y :: Through(s, w, nr - 1, u) && Subbed(u, x) && Shifted(x, y) && Keyed(y, w, nr, t)
  }

  // The code's transformations are these.

  /** A state is its bytes. */
  lemma SameCells(s: Block, t: Block)
    requires forall r: nat, c: nat | r < 4 && c < 4 :: Cell(s, r, c) == Cell(t, r, c)
    ensures s == t
  {
    SameColumn(s, t, 0);
    SameColumn(s, t, 1);
    SameColumn(s, t, 2);
    SameColumn(s, t, 3);
  }

  lemma SameColumn(s: Block, t: Block, c: nat)
    requires forall r: nat | r < 4 :: Cell(s, r, c) == Cell(t, r, c)
    ensures ColumnOf(s, c) == ColumnOf(t, c)
  {
    hide ColumnOf;
    assert Cell(s, 0, c) == Cell(t, 0, c) && Cell(s, 1, c) == Cell(t, 1, c);
    assert Cell(s, 2, c) == Cell(t, 2, c) && Cell(s, 3, c) == Cell(t, 3, c);
  }

  lemma SubIs(s: Block)
    ensures Subbed(s, SubBytes(s))
  {
    hide Sbox;
  }

  lemma ShiftIs(s: Block)
    ensures Shifted(s, ShiftRows(s))
  {
    hide Cell, ShiftRows;
    forall r: nat, c: nat | r < 4 && c < 4 ensures Cell(ShiftRows(s), r, c) == Cell(s, r, (c + r) % 4) {
      ShiftRowIs(s, r);
      assert c == 0 || c == 1 || c == 2 || c == 3;
    }
  }

  lemma ShiftRowIs(s: Block, r: nat)
    requires r < 4
    ensures Cell(ShiftRows(s), r, 0) == Cell(s, r, r % 4) && Cell(ShiftRows(s), r, 1) == Cell(s, r, (1 + r) % 4)
    ensures Cell(ShiftRows(s), r, 2) == Cell(s, r, (2 + r) % 4) && Cell(ShiftRows(s), r, 3) == Cell(s, r, (3 + r) % 4)
  {
  }

  lemma MixColumnsIs(s: Block)
    ensures Mixed(s, MixColumns(s))
  {
    hide MixedByte, Mix, WordByte;
    forall r: nat, c: nat | r < 4 && c < 4 ensures Cell(MixColumns(s), r, c) == MixedByte(ColumnOf(s, c), r) {
      MixColumnIs(ColumnOf(s, c), r);
    }
  }

  lemma MixColumnIs(v: Column, r: nat)
    requires r < 4
    ensures WordByte(Mix(v), r) == MixedByte(v, r)
  {
    hide GfMul, Xor4, Mix;
    MixIs(v);
  }

  lemma KeyIs(s: Block, w: seq<Column>, round: nat)
    requires 4 * round + 4 <= |w|
    ensures round < |RoundKeys(w)| && Keyed(s, w, round, AddBlock(s, RoundKeys(w)[round]))
  {
    hide Xor;
  }

  // So each relation holds of one result only.

  lemma SubOnly(s: Block, t: Block)
    requires Subbed(s, t)
    ensures t == SubBytes(s)
  {
    hide Sbox, SubBytes, Cell;
    SubIs(s);
    SameCells(t, SubBytes(s));
  }

  lemma ShiftOnly(s: Block, t: Block)
    requires Shifted(s, t)
    ensures t == ShiftRows(s)
  {
    hide ShiftRows, Cell;
    ShiftIs(s);
    SameCells(t, ShiftRows(s));
  }

  lemma MixOnly(s: Block, t: Block)
    requires Mixed(s, t)
    ensures t == MixColumns(s)
  {
    hide MixColumns, Cell, MixedByte;
    MixColumnsIs(s);
    SameCells(t, MixColumns(s));
  }

  lemma KeyOnly(s: Block, w: seq<Column>, round: nat, t: Block)
    requires 4 * round + 4 <= |w| && Keyed(s, w, round, t)
    ensures round < |RoundKeys(w)| && t == AddBlock(s, RoundKeys(w)[round])
  {
    hide AddBlock, Cell, Xor, WordByte, RoundKeys;
    KeyIs(s, w, round);
    SameCells(t, AddBlock(s, RoundKeys(w)[round]));
  }

  lemma {:induction false} RoundsAre(s: Block, w: seq<Column>, n: nat, t: Block)
    requires 4 * n + 4 <= |w|
    ensures n < |RoundKeys(w)| && (Through(s, w, n, t) <==> t == Rounds(s, RoundKeys(w), n))
    decreases n
  {
    hide Subbed, Shifted, Mixed, Keyed, SubBytes, ShiftRows, MixColumns, AddBlock, RoundKeys;
    var keys := RoundKeys(w);
    if n == 0 {
      KeyIs(s, w, 0);
      if Through(s, w, 0, t) {
        KeyOnly(s, w, 0, t);
      }
    } else {
      var u0 := Rounds(s, keys, n - 1);
      RoundsAre(s, w, n - 1, u0);
      OneRound(u0, w, n);
      if Through(s, w, n, t) {
        var u, x, y, z :|
          Through(s, w, n - 1, u) && Subbed(u, x) && Shifted(x, y) && Mixed(y, z) && Keyed(z, w, n, t);
        RoundsAre(s, w, n - 1, u);
        SubOnly(u, x);
        ShiftOnly(x, y);
        MixOnly(y, z);
        KeyOnly(z, w, n, t);
      }
    }
  }

  lemma OneRound(u: Block, w: seq<Column>, n: nat)
    requires 4 * n + 4 <= |w|
    ensures n < |RoundKeys(w)|
    ensures var x := SubBytes(u); var y := ShiftRows(x); var z := MixColumns(y);
      && Subbed(u, x) && Shifted(x, y) && Mixed(y, z) && Keyed(z, w, n, AddBlock(z, RoundKeys(w)[n]))
      && Keyed(y, w, n, AddBlock(y, RoundKeys(w)[n]))
  {
    hide Subbed, Shifted, Mixed, Keyed, SubBytes, ShiftRows, MixColumns, AddBlock, RoundKeys;
    SubIs(u);
    ShiftIs(SubBytes(u));
    MixColumnsIs(ShiftRows(SubBytes(u)));
    KeyIs(MixColumns(ShiftRows(SubBytes(u))), w, n);
    KeyIs(ShiftRows(SubBytes(u)), w, n);
  }

  /** What the code computes with the round keys of a schedule is the cipher of the standard, and only that. */
  lemma CipherIs(s: Block, w: seq<Column>, nr: nat, t: Block)
    requires nr >= 1 && |w| == 4 * nr + 4
    ensures |RoundKeys(w)| == nr + 1 && (Ciphers(s, w, nr, t) <==> t == CipherOf(s, RoundKeys(w)))
  {
    hide Subbed, Shifted, Mixed, Keyed, SubBytes, ShiftRows, AddBlock, RoundKeys, Rounds, Through;
    assert |RoundKeys(w)| == nr + 1;
    var u0 := Rounds(s, RoundKeys(w), nr - 1);
    RoundsAre(s, w, nr - 1, u0);
    OneRound(u0, w, nr);
    if Ciphers(s, w, nr, t) {
      var u, x, y :| Through(s, w, nr - 1, u) && Subbed(u, x) && Shifted(x, y) && Keyed(y, w, nr, t);
      RoundsAre(s, w, nr - 1, u);
      SubOnly(u, x);
      ShiftOnly(x, y);
      KeyOnly(y, w, nr, t);
    }
  }

  // CBC mode, section 6.2 of NIST SP 800-38A.

  /** t is the sum of two blocks, byte by byte. */
  ghost predicate Summed(s: Block, v: Block, t: Block) {
    forall r: nat, c: nat | r < 4 && c < 4 :: Cell(t, r, c) == Xor(Cell(s, r, c), Cell(v, r, c))
  }

  lemma SumIs(s: Block, v: Block)
    ensures Summed(s, v, AddBlock(s, v))
  {
    hide Xor;
  }

  /** c is the cipher of p plus the ciphertext block before it. */
  ghost predicate Link(p: Block, prev: Block, w: seq<Column>, nr: nat, c: Block)
    requires nr >= 1 && |w| == 4 * nr + 4
  {
    exists x :: Summed(p, prev, x) && Ciphers(x, w, nr, c)
  }

  lemma LinkIs(p: Block, prev: Block, w: seq<Column>, nr: nat)
    requires nr >= 1 && |w| == 4 * nr + 4
    ensures |RoundKeys(w)| == nr + 1 && Link(p, prev, w, nr, CipherOf(AddBlock(p, prev), RoundKeys(w)))
  {
    hide Summed, Ciphers, CipherOf, AddBlock, RoundKeys;
    var x := AddBlock(p, prev);
    SumIs(p, prev);
    assert |RoundKeys(w)| == nr + 1;
    CipherIs(x, w, nr, CipherOf(x, RoundKeys(w)));
  }

  /** So is every block of the ciphertext; the first has the starting value before it. */
  lemma {:induction false} CbcIs(buf: seq<Block>, iv: Block, w: seq<Column>, nr: nat, j: nat)
    requires nr >= 1 && |w| == 4 * nr + 4 && j < |buf|
    ensures |RoundKeys(w)| == nr + 1
    ensures var out := Encrypted(buf, iv, RoundKeys(w)); Link(buf[j], if j == 0 then iv else out[j - 1], w, nr, out[j])
    decreases j
  {
    hide Link, CipherOf, AddBlock, RoundKeys;
    LinkIs(buf[0], iv, w, nr);
    if j > 0 {
      CbcIs(buf[1..], CipherOf(AddBlock(buf[0], iv), RoundKeys(w)), w, nr, j - 1);
    }
  }
}
