/**
 FFT_bitreverse of bench/FFT.c: the in-place permutation before the transform. The data are n complex
 numbers, n = N / 2 a power of two; the two doubles of a number are neighbours in the source's array
 and one element here.
 */
module BitReverse {
  import opened Common

  datatype Complex = Complex(re: real, im: real)

  /** The low m bits of i, reversed. */
  function Rev(m: nat, i: nat): nat {
    if m == 0 then 0 else (if i % 2 == 1 then Pow2(m - 1) else 0) + Rev(m - 1, i / 2)
  }

  lemma {:induction false} RevBelow(m: nat, i: nat)
    ensures Rev(m, i) < Pow2(m)
  {
    if m > 0 {
      RevBelow(m - 1, i / 2);
    }
  }

  /** Bit k of x. */
  function BitAt(x: nat, k: nat): nat {
    x / Pow2(k) % 2
  }

  /** x with b as bit m, above all its own. */
  function WithBit(b: nat, m: nat, x: nat): nat {
    b * Pow2(m) + x
  }

  lemma RevOne(m: nat, i: nat)
    requires m > 0
    ensures Rev(m, i) == WithBit(i % 2, m - 1, Rev(m - 1, i / 2))
  {
  }

  /** Bit k of the reversal is bit m - 1 - k of the number. */
  lemma {:induction false} RevBits(m: nat, i: nat, k: nat)
    requires k < m
    ensures BitAt(Rev(m, i), k) == BitAt(i, m - 1 - k)
    decreases m
  {
    hide Rev, Pow2, BitAt, WithBit;
    RevBelow(m - 1, i / 2);
    RevOne(m, i);
    if k == m - 1 {
      TopBit(i % 2, m - 1, Rev(m - 1, i / 2));
      FirstBit(i);
    } else {
      RevBits(m - 1, i / 2, k);
      LowerBit(i % 2, m - 1, Rev(m - 1, i / 2), k);
      HalfBit(i, m - 2 - k);
    }
  }

  lemma NextPower(n: nat)
    ensures Pow2(n + 1) == 2 * Pow2(n)
  {
  }

  lemma FirstBit(i: nat)
    ensures BitAt(i, 0) == i % 2
  {
  }

  lemma TopBit(b: nat, m: nat, x: nat)
    requires b <= 1 && x < Pow2(m)
    ensures BitAt(WithBit(b, m, x), m) == b
  {
    hide Pow2;
    DivUnique(b * Pow2(m) + x, Pow2(m), b, x);
  }

  lemma HalfBit(i: nat, k: nat)
    ensures BitAt(i / 2, k) == BitAt(i, k + 1)
  {
    hide Pow2;
    NextPower(k);
    HalfAgain(i, Pow2(k));
  }

  /** A higher bit does not show in a lower place. */
  lemma LowerBit(b: nat, m: nat, x: nat, k: nat)
    requires b <= 1 && k < m
    ensures BitAt(WithBit(b, m, x), k) == BitAt(x, k)
  {
    hide Pow2;
    Pow2Add(m - k, k);
    NextPower(m - k - 1);
    var p, q := Pow2(k), Pow2(m - k - 1);
    Factored(b, q, p);
    DivPlus(x, 2 * (b * q), p);
    EvenPart(b * q, x / p);
  }

  lemma Factored(b: nat, q: nat, p: nat)
    ensures b * ((2 * q) * p) == (2 * (b * q)) * p
  {
  }

  lemma EvenPart(a: nat, y: nat)
    ensures (2 * a + y) % 2 == y % 2
  {
  }

  lemma DivPlus(x: nat, a: nat, p: nat)
    requires p > 0
    ensures (a * p + x) / p == a + x / p
  {
    DivUnique(a * p + x, p, a + x / p, x % p);
  }

  lemma HalfAgain(i: nat, p: nat)
    requires p > 0
    ensures i / 2 / p == i / (2 * p)
  {
    var q, r := i / 2 / p, i / 2 % p;
    assert i / 2 == q * p + r;
    DivUnique(i, 2 * p, q, 2 * r + i % 2);
  }

  /** The highest bit goes to the lowest place. */
  lemma {:induction false} RevTop(m: nat, x: nat, b: nat)
    requires m > 0 && x < Pow2(m - 1) && b <= 1
    ensures Rev(m, x + b * Pow2(m - 1)) == 2 * Rev(m - 1, x) + b
  {
    var y := x + b * Pow2(m - 1);
    if m == 1 {
      assert y == b && Rev(0, y / 2) == 0;
    } else {
      assert Pow2(m - 1) == 2 * Pow2(m - 2);
      assert y % 2 == x % 2 && y / 2 == x / 2 + b * Pow2(m - 2);
      RevTop(m - 1, x / 2, b);
    }
  }

  /** Reversing twice gives the number back. */
  lemma {:induction false} RevInvolution(m: nat, i: nat)
    requires i < Pow2(m)
    ensures Rev(m, Rev(m, i)) == i
  {
    if m > 0 {
      RevBelow(m - 1, i / 2);
      RevInvolution(m - 1, i / 2);
      RevTop(m, Rev(m - 1, i / 2), i % 2);
    }
  }

  /** The inner loop, from j and k, ends before k reaches zero. */
  predicate Ends(j: nat, k: nat)
    requires k > 0
    decreases j
  {
    k <= j ==> k > 1 && Ends(j - k, k / 2)
  }

  /** What it makes of j: one more, carried from the top. */
  function Carry(j: nat, k: nat): nat
    requires k > 0 && Ends(j, k)
    decreases j
  {
    if k <= j then Carry(j - k, k / 2) else j + k
  }

  /** The inner loop steps from the reversal of i to that of i + 1. */
  lemma {:induction false} CarryIsNext(m: nat, i: nat)
    requires m > 0 && i + 1 < Pow2(m)
    ensures Ends(Rev(m, i), Pow2(m - 1)) && Carry(Rev(m, i), Pow2(m - 1)) == Rev(m, i + 1)
  {
    RevBelow(m - 1, i / 2);
    assert Pow2(m) == 2 * Pow2(m - 1);
    if i % 2 == 0 {
      assert (i + 1) / 2 == i / 2 && Rev(m, i) == Rev(m - 1, i / 2) && Rev(m, i + 1) == Pow2(m - 1) + Rev(m - 1, i / 2);
    } else {
      assert (i + 1) / 2 == i / 2 + 1 && Rev(m, i) == Pow2(m - 1) + Rev(m - 1, i / 2) && m > 1;
      CarryIsNext(m - 1, i / 2);
    }
  }

  /** The last index is all ones. */
  lemma {:induction false} RevLast(m: nat)
    ensures Rev(m, Pow2(m) - 1) == Pow2(m) - 1
  {
    if m > 0 {
      assert (Pow2(m) - 1) / 2 == Pow2(m - 1) - 1;
      RevLast(m - 1);
    }
  }

  /** Before step i, the pairs with a member below i are exchanged. */
  ghost predicate Exchanged(m: nat, i: nat, before: seq<Complex>, now: seq<Complex>) {
    |before| == |now| == Pow2(m) && forall p: nat | p < |now| :: ExchangedAt(i, p, Rev(m, p), before, now)
  }

  ghost predicate ExchangedAt(i: nat, p: nat, q: nat, before: seq<Complex>, now: seq<Complex>)
    requires p < |now| == |before|
  {
    q < |now| && now[p] == if p < i || q < i then before[q] else before[p]
  }

  lemma ExchangedStep(m: nat, i: nat, before: seq<Complex>, now: seq<Complex>)
    requires Exchanged(m, i, before, now) && i < Pow2(m)
    ensures var j := Rev(m, i);
      j < |now| && Exchanged(m, i + 1, before, if i < j then now[i := now[j]][j := now[i]] else now)
  {
    hide Rev, Pow2;
    var j := Rev(m, i);
    RevBelow(m, i);
    RevInvolution(m, i);
    var next := if i < j then now[i := now[j]][j := now[i]] else now;
    forall p: nat | p < |next| ensures ExchangedAt(i + 1, p, Rev(m, p), before, next) {
      RevBelow(m, p);
      RevInvolution(m, p);
      assert ExchangedAt(i, p, Rev(m, p), before, now);
    }
  }

  lemma ExchangedStart(m: nat, before: seq<Complex>)
    requires |before| == Pow2(m)
    ensures Exchanged(m, 0, before, before)
  {
    forall p: nat | p < |before| ensures ExchangedAt(0, p, Rev(m, p), before, before) {
      RevBelow(m, p);
    }
  }

  /** The sequence that has element Rev(m, p) at p. */
  ghost predicate Reversal(m: nat, before: seq<Complex>, after: seq<Complex>) {
    |before| == |after| == Pow2(m) && forall p: nat | p < |after| ::
      Rev(m, p) < |before| && after[p] == before[Rev(m, p)]
  }

  lemma ExchangedEnd(m: nat, before: seq<Complex>, now: seq<Complex>)
    requires Exchanged(m, Pow2(m) - 1, before, now)
    ensures Reversal(m, before, now)
  {
    forall p: nat | p < |now| ensures Rev(m, p) < |before| && now[p] == before[Rev(m, p)] {
      RevBelow(m, p);
      RevInvolution(m, p);
      RevLast(m);
      assert ExchangedAt(Pow2(m) - 1, p, Rev(m, p), before, now);
    }
  }

  /** FFT_bitreverse on n = 2^m numbers. */
  method FftBitReverse(data: array<Complex>, ghost m: nat)
    requires data.Length == Pow2(m)
    modifies data
    ensures Reversal(m, old(data[..]), data[..])
  {
    hide Rev, Pow2, Exchanged, Reversal;
    var n := data.Length;
    var i, j: nat := 0, 0;
    RevZero(m);
    ExchangedStart(m, data[..]);
    while i < n - 1
      invariant 0 <= i <= n - 1 && j == Rev(m, i) && Exchanged(m, i, old(data[..]), data[..])
    {
      ghost var now := data[..];
      ExchangedStep(m, i, old(data[..]), now);
      if i < j {
        data[i], data[j] := data[j], data[i];
        assert data[..] == now[i := now[j]][j := now[i]];
      }
      ghost var next := data[..];
      assert Exchanged(m, i + 1, old(data[..]), next);
      HalfIs(m, i);
      CarryIsNext(m, i);
      var k := n / 2;
      while k <= j
        invariant k > 0 && Ends(j, k) && Carry(j, k) == Rev(m, i + 1) && data[..] == next
        decreases j
      {
        j := j - k;
        k := k / 2;
      }
      j := j + k;
      i := i + 1;
    }
    ExchangedEnd(m, old(data[..]), data[..]);
  }

  lemma RevZero(m: nat)
    ensures Rev(m, 0) == 0
  {
  }

  lemma HalfIs(m: nat, i: nat)
    requires i + 1 < Pow2(m)
    ensures m > 0 && Pow2(m) / 2 == Pow2(m - 1) > 0
  {
  }

  /** Running it twice is the identity. */
  lemma TwiceIsIdentity(m: nat, a: seq<Complex>, b: seq<Complex>, c: seq<Complex>)
    requires Reversal(m, a, b) && Reversal(m, b, c)
    ensures c == a
  {
    forall p: nat | p < |a| ensures c[p] == a[p] {
      RevInvolution(m, p);
    }
  }
}
