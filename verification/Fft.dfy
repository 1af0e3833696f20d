/**
 The transform of bench/FFT.c: FFT_transform_internal, FFT_transform and FFT_inverse, over exact
 reals. The butterflies compute the discrete Fourier transform, and the inverse undoes it.

 The sine is a parameter. All that is used of it are its doubling laws and its values at half a turn.
 */
module Fft {
  import opened Common
  import opened BitReverse

  // Complex arithmetic.

  const ZERO := Complex(0.0, 0.0)
  const ONE := Complex(1.0, 0.0)

  function Add(a: Complex, b: Complex): Complex {
    Complex(a.re + b.re, a.im + b.im)
  }

  function Sub(a: Complex, b: Complex): Complex {
    Complex(a.re - b.re, a.im - b.im)
  }

  function Mul(a: Complex, b: Complex): Complex {
    Complex(a.re * b.re - a.im * b.im, a.re * b.im + a.im * b.re)
  }

  lemma MulComm(a: Complex, b: Complex)
    ensures Mul(a, b) == Mul(b, a)
  {
  }

  lemma MulAssoc(a: Complex, b: Complex, c: Complex)
    ensures Mul(Mul(a, b), c) == Mul(a, Mul(b, c))
  {
  }

  lemma MulAdd(a: Complex, b: Complex, c: Complex)
    ensures Mul(a, Add(b, c)) == Add(Mul(a, b), Mul(a, c))
    ensures Mul(Add(b, c), a) == Add(Mul(b, a), Mul(c, a))
  {
  }

  lemma MulNeg(a: Complex, b: Complex)
    ensures Mul(Sub(ZERO, a), b) == Sub(ZERO, Mul(a, b)) && Mul(b, Sub(ZERO, a)) == Sub(ZERO, Mul(b, a))
  {
  }

  lemma MulOne(a: Complex)
    ensures Mul(ONE, a) == a && Mul(a, ONE) == a && Mul(ZERO, a) == ZERO && Mul(a, ZERO) == ZERO
  {
  }

  function Pow(w: Complex, e: nat): Complex {
    if e == 0 then ONE else Mul(w, Pow(w, e - 1))
  }

  lemma {:induction false} PowAdd(w: Complex, a: nat, b: nat)
    ensures Pow(w, a + b) == Mul(Pow(w, a), Pow(w, b))
  {
    hide Mul;
    if a == 0 {
      MulOne(Pow(w, b));
    } else {
      PowAdd(w, a - 1, b);
      MulAssoc(w, Pow(w, a - 1), Pow(w, b));
    }
  }

  lemma {:induction false} PowMul(w: Complex, a: nat, b: nat)
    ensures Pow(w, a * b) == Pow(Pow(w, a), b)
  {
    hide Mul;
    if b > 0 {
      PowMul(w, a, b - 1);
      assert a * b == a + a * (b - 1);
      PowAdd(w, a, a * (b - 1));
    }
  }

  lemma {:induction false} PowOne(e: nat)
    ensures Pow(ONE, e) == ONE
  {
    hide Mul;
    if e > 0 {
      PowOne(e - 1);
      MulOne(ONE);
    }
  }

  /** Powers of two numbers whose product is one cancel. */
  lemma {:induction false} PowInverse(w: Complex, v: Complex, e: nat)
    requires Mul(w, v) == ONE
    ensures Mul(Pow(w, e), Pow(v, e)) == ONE
  {
    hide Mul;
    MulOne(ONE);
    if e > 0 {
      var p, q := Pow(w, e - 1), Pow(v, e - 1);
      PowInverse(w, v, e - 1);
      MulComm(w, p);
      MulAssoc(p, w, Mul(v, q));
      MulAssoc(w, v, q);
      MulOne(q);
    }
  }

  // The roots of unity.

  /** What is used of the sine, with cos x as 1 - 2 sin(x/2)^2: it is odd, it obeys the doubling law and
      Pythagoras, and half a turn is pi. */
  ghost predicate IsSine(sin: real -> real, pi: real) {
    && (forall x: real :: SineAt(sin, x))
    && sin(pi) == 0.0 && sin(pi / 2.0) * sin(pi / 2.0) == 1.0
  }

  predicate SineAt(sin: real -> real, x: real) {
    sin(-x) == -sin(x) && Pythagoras(Cos(sin, x), sin(x)) && sin(2.0 * x) == 2.0 * (sin(x) * Cos(sin, x))
  }

  predicate Pythagoras(c: real, s: real) {
    c * c + s * s == 1.0
  }

  function Cos(sin: real -> real, x: real): real {
    1.0 - 2.0 * (sin(x / 2.0) * sin(x / 2.0))
  }

  /** The number on the unit circle at an angle. */
  function Turn(sin: real -> real, x: real): Complex {
    Complex(Cos(sin, x), sin(x))
  }

  lemma SquareTurn(c: real, s: real)
    requires Pythagoras(c, s)
    ensures Square(Complex(c, s)) == Complex(1.0 - 2.0 * (s * s), 2.0 * (s * c))
  {
  }

  lemma TurnTwice(sin: real -> real, pi: real, x: real)
    requires IsSine(sin, pi)
    ensures Square(Turn(sin, x)) == Turn(sin, 2.0 * x)
  {
    hide Square;
    assert SineAt(sin, x);
    SquareTurn(Cos(sin, x), sin(x));
    assert 2.0 * x / 2.0 == x;
  }

  function Square(z: Complex): Complex {
    Mul(z, z)
  }

  /** root[t] stands for a 2^t-th root of unity: each is the square of the next, from 1 and -1. */
  ghost predicate Roots(root: seq<Complex>) {
    && |root| > 0 && root[0] == ONE && (|root| > 1 ==> root[1] == Sub(ZERO, ONE))
    && (forall t: nat | 0 < t < |root| :: root[t - 1] == Square(root[t]))
  }

  lemma PowSquare(w: Complex, e: nat)
    ensures Pow(Square(w), e) == Pow(w, 2 * e)
  {
    hide Mul;
    PowMul(w, 2, e);
    assert Pow(w, 1) == Mul(w, Pow(w, 0));
    MulOne(w);
  }

  lemma {:induction false} RootPow(root: seq<Complex>, t: nat)
    requires Roots(root) && t < |root|
    ensures Pow(root[t], Pow2(t)) == ONE
    ensures t > 0 ==> Pow(root[t], Pow2(t - 1)) == Sub(ZERO, ONE)
  {
    hide Mul, Square;
    MulOne(root[t]);
    if t > 0 {
      RootPow(root, t - 1);
      PowSquare(root[t], Pow2(t - 1));
      if t > 1 {
        PowSquare(root[t], Pow2(t - 2));
      } else {
        assert Pow(root[t], 1) == Mul(root[t], Pow(root[t], 0));
      }
    }
  }

  // The discrete Fourier transform.

  function At(x: seq<Complex>, i: nat): Complex {
    if i < |x| then x[i] else ZERO
  }

  /** The k-th coefficient of the n numbers x[off], x[off + stride], ..., for the root w. */
  function Dft(x: seq<Complex>, w: Complex, off: nat, stride: nat, n: nat, k: nat): Complex {
    if n == 0 then ZERO else Add(Dft(x, w, off, stride, n - 1, k),
        Mul(At(x, off + (n - 1) * stride), Pow(w, (n - 1) * k)))
  }

  /** The odd term carries a factor w^k. */
  lemma OddTerm(c: Complex, w: Complex, n: nat, k: nat)
    ensures Mul(c, Pow(w, (2 * n + 1) * k)) == Mul(Pow(w, k), Mul(c, Pow(Square(w), n * k)))
    ensures Pow(w, (2 * n) * k) == Pow(Square(w), n * k)
  {
    hide Mul, Pow, Square;
    assert (2 * n) * k == 2 * (n * k) && (2 * n + 1) * k == k + 2 * (n * k);
    PowSquare(w, n * k);
    PowAdd(w, k, 2 * (n * k));
    var a, p := Pow(w, k), Pow(w, 2 * (n * k));
    MulAssoc(c, a, p);
    MulComm(c, a);
    MulAssoc(a, c, p);
  }

  /** Decimation in time: the even and the odd places, each with the square of the root. */
  lemma {:induction false} DftSplit(x: seq<Complex>, w: Complex, off: nat, stride: nat, n: nat, k: nat)
    ensures Dft(x, w, off, stride, 2 * n, k)
         == Add(Dft(x, Square(w), off, 2 * stride, n, k),
             Mul(Pow(w, k), Dft(x, Square(w), off + stride, 2 * stride, n, k)))
  {
    hide Mul, Pow, Square, At;
    MulOne(Pow(w, k));
    if n > 0 {
      var l := n - 1;
      DftSplit(x, w, off, stride, l, k);
      var i, j := off + l * (2 * stride), off + stride + l * (2 * stride);
      assert off + (2 * l) * stride == i && off + (2 * l + 1) * stride == j;
      OddTerm(At(x, j), w, l, k);
      MulAdd(Pow(w, k), Dft(x, Square(w), off + stride, 2 * stride, l, k), Mul(At(x, j), Pow(Square(w), l * k)));
      DftTwo(x, w, off, stride, l, k);
    }
  }

  lemma DftTwo(x: seq<Complex>, w: Complex, off: nat, stride: nat, l: nat, k: nat)
    ensures Dft(x, w, off, stride, 2 * (l + 1), k)
         == Add(Add(Dft(x, w, off, stride, 2 * l, k), Mul(At(x, off + (2 * l) * stride), Pow(w, (2 * l) * k))),
                Mul(At(x, off + (2 * l + 1) * stride), Pow(w, (2 * l + 1) * k)))
  {
    hide Mul, Pow, At;
    var n := 2 * (l + 1);
    assert n - 1 == 2 * l + 1 && n - 1 - 1 == 2 * l;
  }

  lemma Spread(m: nat, k: nat, h: nat)
    ensures m * (k + h) == m * k + h * m
  {
  }

  lemma {:induction false} DftPeriod(x: seq<Complex>, w: Complex, off: nat, stride: nat, n: nat, k: nat, h: nat)
    requires Pow(w, h) == ONE
    ensures Dft(x, w, off, stride, n, k + h) == Dft(x, w, off, stride, n, k)
  {
    hide Mul, Pow, At;
    if n > 0 {
      DftPeriod(x, w, off, stride, n - 1, k, h);
      Spread(n - 1, k, h);
      PowAdd(w, (n - 1) * k, h * (n - 1));
      PowMul(w, h, n - 1);
      PowOne(n - 1);
      MulOne(Pow(w, (n - 1) * k));
    }
  }

  // The butterflies. A block of 2 * dual places is one of cnt; place r of block c is Idx(c, 2 * dual, r).

  function Idx(c: nat, len: nat, r: nat): nat {
    c * len + r
  }

  lemma IdxUnique(c: nat, r: nat, c': nat, r': nat, len: nat)
    requires r < len && r' < len && (c != c' || r != r')
    ensures Idx(c, len, r) != Idx(c', len, r')
  {
    if c < c' {
      MulMono(c + 1, c', len);
    } else if c' < c {
      MulMono(c' + 1, c, len);
    }
  }

  lemma IdxBelow(c: nat, cnt: nat, len: nat, r: nat)
    requires c < cnt && r < len
    ensures Idx(c, len, r) < cnt * len
  {
    MulMono(c + 1, cnt, len);
  }

  /** The places lo and lo + dual hold their butterfly, with twiddle factor w^r, once it is done. */
  ghost predicate PairOk(s0: seq<Complex>, s: seq<Complex>, dual: nat, w: Complex, c: nat, r: nat, a: nat, b: nat) {
    var lo, hi := Idx(c, 2 * dual, r), Idx(c, 2 * dual, r + dual);
    && lo < hi < |s| == |s0|
    && if r < a || (r == a && c < b)
       then s[lo] == Add(s0[lo], Mul(Pow(w, r), s0[hi])) && s[hi] == Sub(s0[lo], Mul(Pow(w, r), s0[hi]))
       else s[lo] == s0[lo] && s[hi] == s0[hi]
  }

  /** The butterflies of the first a places are done in every block, those of place a in the first b. */
  ghost predicate Passed(s0: seq<Complex>, s: seq<Complex>, dual: nat, cnt: nat, w: Complex, a: nat, b: nat) {
    |s| == |s0| == cnt * (2 * dual) && forall c: nat, r: nat | c < cnt && r < dual :: PairOk(s0, s, dual, w, c, r, a, b)
  }

  lemma PassedNone(s: seq<Complex>, dual: nat, cnt: nat, w: Complex)
    requires |s| == cnt * (2 * dual)
    ensures Passed(s, s, dual, cnt, w, 0, 0)
  {
    hide Mul, Pow;
    forall c: nat, r: nat | c < cnt && r < dual ensures PairOk(s, s, dual, w, c, r, 0, 0) {
      IdxBelow(c, cnt, 2 * dual, r + dual);
    }
  }

  lemma PassedNext(s0: seq<Complex>, s: seq<Complex>, dual: nat, cnt: nat, w: Complex, a: nat)
    requires Passed(s0, s, dual, cnt, w, a, cnt)
    ensures Passed(s0, s, dual, cnt, w, a + 1, 0)
  {
    hide Mul, Pow, Idx;
    var a' := a + 1;
    forall c: nat, r: nat | c < cnt && r < dual ensures PairOk(s0, s, dual, w, c, r, a', 0) {
      assert PairOk(s0, s, dual, w, c, r, a, cnt);
    }
  }

  /** One butterfly. */
  function Crossed(s: seq<Complex>, i: nat, j: nat, wd: Complex): seq<Complex>
    requires i < |s| && j < |s|
  {
    s[j := Sub(s[i], wd)][i := Add(s[i], wd)]
  }

  lemma PassedStep(s0: seq<Complex>, s: seq<Complex>, dual: nat, cnt: nat, w: Complex, a: nat, b: nat)
    requires Passed(s0, s, dual, cnt, w, a, b) && a < dual && b < cnt
    ensures var i, j := Idx(b, 2 * dual, a), Idx(b, 2 * dual, a + dual);
      && i < |s| && j < |s| && s[i] == s0[i] && s[j] == s0[j]
      && Passed(s0, Crossed(s, i, j, Mul(Pow(w, a), s[j])), dual, cnt, w, a, b + 1)
  {
    hide Mul, Pow, Idx;
    var i, j := Idx(b, 2 * dual, a), Idx(b, 2 * dual, a + dual);
    assert PairOk(s0, s, dual, w, b, a, a, b);
    var s' := Crossed(s, i, j, Mul(Pow(w, a), s[j]));
    var b' := b + 1;
    forall c: nat, r: nat | c < cnt && r < dual ensures PairOk(s0, s', dual, w, c, r, a, b') {
      assert PairOk(s0, s, dual, w, c, r, a, b);
      if c != b || r != a {
        IdxUnique(c, r, b, a, 2 * dual);
        IdxUnique(c, r, b, a + dual, 2 * dual);
        IdxUnique(c, r + dual, b, a, 2 * dual);
        IdxUnique(c, r + dual, b, a + dual, 2 * dual);
      }
    }
  }

  // A stage joins the transforms of neighbouring blocks.

  /** Place a of block c holds coefficient a of the numbers x[j * 2^(m-t) + Rev(m-t, c)]. */
  ghost predicate Cell(m: nat, t: nat, x: seq<Complex>, s: seq<Complex>, w: Complex, c: nat, a: nat)
    requires t <= m
  {
    var p := Idx(c, Pow2(t), a);
    p < |s| && s[p] == Dft(x, w, Rev(m - t, c), Pow2(m - t), Pow2(t), a)
  }

  ghost predicate Stage(m: nat, t: nat, x: seq<Complex>, s: seq<Complex>, root: seq<Complex>) {
    && t <= m && |root| == m + 1 && |s| == |x| == Pow2(m)
    && forall c: nat, a: nat | c < Pow2(m - t) && a < Pow2(t) :: Cell(m, t, x, s, root[t], c, a)
  }

  lemma SubIsNeg(a: Complex, w: Complex, b: Complex)
    ensures Add(a, Mul(Mul(w, Sub(ZERO, ONE)), b)) == Sub(a, Mul(w, b))
  {
    hide Mul;
    MulNeg(ONE, w);
    MulOne(w);
    MulNeg(w, b);
  }

  /** Coefficients r and r + dual of the joined block, from coefficient r of its two parts. */
  ghost predicate Joins(x: seq<Complex>, w: Complex, off: nat, stride: nat, dual: nat, r: nat) {
    var e, o := Dft(x, Square(w), off, 2 * stride, dual, r), Dft(x, Square(w), off + stride, 2 * stride, dual, r);
    && Dft(x, w, off, stride, 2 * dual, r) == Add(e, Mul(Pow(w, r), o))
    && Dft(x, w, off, stride, 2 * dual, r + dual) == Sub(e, Mul(Pow(w, r), o))
  }

  lemma Joined(x: seq<Complex>, w: Complex, off: nat, stride: nat, dual: nat, r: nat)
    requires Pow(Square(w), dual) == ONE && Pow(w, dual) == Sub(ZERO, ONE)
    ensures Joins(x, w, off, stride, dual, r)
  {
    hide Mul, Pow, Dft, Square;
    DftSplit(x, w, off, stride, dual, r);
    DftSplit(x, w, off, stride, dual, r + dual);
    DftPeriod(x, Square(w), off, 2 * stride, dual, r, dual);
    DftPeriod(x, Square(w), off + stride, 2 * stride, dual, r, dual);
    PowAdd(w, r, dual);
    SubIsNeg(Dft(x, Square(w), off, 2 * stride, dual, r), Pow(w, r),
        Dft(x, Square(w), off + stride, 2 * stride, dual, r));
  }

  /** The two parts of a joined block hold the numbers at its even and odd places. */
  lemma Halves(m: nat, t: nat, c: nat, r: nat)
    requires t < m && c < Pow2(m - t - 1)
    ensures 2 * c + 1 < Pow2(m - t) && 2 * Pow2(m - t - 1) == Pow2(m - t) && 2 * Pow2(t) == Pow2(t + 1)
    ensures Rev(m - t, 2 * c) == Rev(m - t - 1, c) && Rev(m - t, 2 * c + 1) == Rev(m - t - 1, c) + Pow2(m - t - 1)
    ensures Idx(2 * c, Pow2(t), r) == Idx(c, Pow2(t + 1), r)
    ensures Idx(2 * c + 1, Pow2(t), r) == Idx(c, Pow2(t + 1), r + Pow2(t))
  {
    hide Pow2, Rev, Idx;
    Doubled(t);
    Doubled(m - t - 1);
    RevHalves(m - t - 1, c);
    IdxHalves(c, Pow2(t), r);
  }

  lemma RevHalves(k: nat, c: nat)
    ensures Rev(k + 1, 2 * c) == Rev(k, c) && Rev(k + 1, 2 * c + 1) == Rev(k, c) + Pow2(k)
  {
    hide Pow2;
    assert (2 * c) / 2 == c && (2 * c + 1) / 2 == c;
  }

  lemma IdxHalves(c: nat, d: nat, r: nat)
    ensures Idx(2 * c, d, r) == Idx(c, 2 * d, r) && Idx(2 * c + 1, d, r) == Idx(c, 2 * d, r + d)
  {
    assert (2 * c) * d == c * (2 * d);
  }

  lemma JoinedCells(m: nat, t: nat, x: seq<Complex>, s0: seq<Complex>, s: seq<Complex>, root: seq<Complex>, c: nat,
      r: nat)
    requires Roots(root) && Stage(m, t, x, s0, root) && t < m && c < Pow2(m - t - 1) && r < Pow2(t)
    requires PairOk(s0, s, Pow2(t), root[t + 1], c, r, Pow2(t), 0)
    ensures Cell(m, t + 1, x, s, root[t + 1], c, r) && Cell(m, t + 1, x, s, root[t + 1], c, r + Pow2(t))
  {
    hide Mul, Pow, Dft, Square, Pow2, Rev, Idx;
    Halves(m, t, c, r);
    assert Cell(m, t, x, s0, root[t], 2 * c, r) && Cell(m, t, x, s0, root[t], 2 * c + 1, r);
    assert root[t] == Square(root[t + 1]);
    RootPow(root, t);
    RootPow(root, t + 1);
    Joined(x, root[t + 1], Rev(m - t - 1, c), Pow2(m - t - 1), Pow2(t), r);
  }

  lemma StageStep(m: nat, t: nat, x: seq<Complex>, s0: seq<Complex>, s: seq<Complex>, root: seq<Complex>)
    requires Roots(root) && Stage(m, t, x, s0, root) && t < m
    requires Passed(s0, s, Pow2(t), Pow2(m - t - 1), root[t + 1], Pow2(t), 0)
    ensures Stage(m, t + 1, x, s, root)
  {
    hide Cell, PairOk, Roots, Rev, Pow2;
    var t', d := t + 1, Pow2(t);
    Doubled(t);
    forall c: nat, a: nat | c < Pow2(m - t') && a < Pow2(t') ensures Cell(m, t', x, s, root[t'], c, a) {
      var r := if a < d then a else a - d;
      assert PairOk(s0, s, d, root[t'], c, r, d, 0);
      JoinedCells(m, t, x, s0, s, root, c, r);
    }
  }

  lemma Doubled(t: nat)
    ensures Pow2(t + 1) == 2 * Pow2(t)
  {
  }

  /** After the bit reversal each number is its own transform. */
  lemma StageStart(m: nat, x: seq<Complex>, s: seq<Complex>, root: seq<Complex>)
    requires Roots(root) && |root| == m + 1 && Reversal(m, x, s)
    ensures Stage(m, 0, x, s, root)
  {
    hide Rev, Mul;
    forall c: nat, a: nat | c < Pow2(m - 0) && a < Pow2(0) ensures Cell(m, 0, x, s, root[0], c, a) {
      assert s[c] == x[Rev(m, c)];
      MulOne(x[Rev(m, c)]);
      assert Dft(x, ONE, Rev(m, c), Pow2(m), 1, 0) == Add(Dft(x, ONE, Rev(m, c), Pow2(m), 0, 0),
          Mul(At(x, Rev(m, c) + 0 * Pow2(m)), Pow(ONE, 0 * 0)));
    }
  }

  /** y is the transform of x for the root w. */
  ghost predicate IsDft(x: seq<Complex>, y: seq<Complex>, w: Complex) {
    |y| == |x| && forall k: nat | k < |y| :: y[k] == Dft(x, w, 0, 1, |x|, k)
  }

  lemma StageEnd(m: nat, x: seq<Complex>, s: seq<Complex>, root: seq<Complex>)
    requires Stage(m, m, x, s, root)
    ensures IsDft(x, s, root[m])
  {
    hide Dft;
    forall k: nat | k < |s| ensures s[k] == Dft(x, root[m], 0, 1, |x|, k) {
      assert Cell(m, m, x, s, root[m], 0, k);
    }
  }

  // The program.

  /** The roots the sines give: root[t] at the angle half / 2^(t-1). */
  function RootsOf(sin: real -> real, half: real, m: nat): (root: seq<Complex>)
    ensures |root| == m + 1 && root[0] == ONE
    ensures forall t: nat | 0 < t <= m :: root[t] == Turn(sin, Angle(half, t - 1))
  {
    if m == 0 then [ONE] else RootsOf(sin, half, m - 1) + [Turn(sin, Angle(half, m - 1))]
  }

  function Angle(half: real, bit: nat): real {
    half / Pow2(bit) as real
  }

  lemma AngleTwice(half: real, bit: nat)
    ensures Angle(half, bit) == 2.0 * Angle(half, bit + 1) && Angle(half, 0) == half
  {
    var d := Pow2(bit) as real;
    assert Pow2(bit + 1) as real == 2.0 * d;
    assert half / (2.0 * d) * 2.0 == half / d;
  }

  predicate IsHalfTurn(half: real, pi: real) {
    half == pi || half == -pi
  }

  lemma RootsOk(sin: real -> real, pi: real, half: real, m: nat)
    requires IsSine(sin, pi) && IsHalfTurn(half, pi)
    ensures Roots(RootsOf(sin, half, m))
  {
    hide Angle, Square, RootsOf;
    var root := RootsOf(sin, half, m);
    AngleTwice(half, 0);
    HalfTurn(sin, pi, half);
    forall t: nat | 0 < t < |root| ensures root[t - 1] == Square(root[t]) {
      if t > 1 {
        AngleTwice(half, t - 2);
      }
      TurnTwice(sin, pi, Angle(half, t - 1));
      MinusOneSquared();
    }
  }

  lemma MinusOneSquared()
    ensures Square(Sub(ZERO, ONE)) == ONE
  {
  }

  lemma HalfTurn(sin: real -> real, pi: real, half: real)
    requires IsSine(sin, pi) && IsHalfTurn(half, pi)
    ensures Turn(sin, half) == Sub(ZERO, ONE)
  {
    hide IsSine;
    SineIsOdd(sin, pi, pi);
    SineIsOdd(sin, pi, pi / 2.0);
    SineAtPi(sin, pi);
    SquareOfNeg(sin(pi / 2.0));
    HalfOfNeg(pi);
  }

  lemma SineIsOdd(sin: real -> real, pi: real, x: real)
    requires IsSine(sin, pi)
    ensures sin(-x) == -sin(x)
  {
    assert SineAt(sin, x);
  }

  lemma SineAtPi(sin: real -> real, pi: real)
    requires IsSine(sin, pi)
    ensures sin(pi) == 0.0 && sin(pi / 2.0) * sin(pi / 2.0) == 1.0
  {
    hide SineAt;
  }

  lemma SquareOfNeg(a: real)
    ensures (-a) * (-a) == a * a
  {
  }

  lemma HalfOfNeg(a: real)
    ensures -a / 2.0 == -(a / 2.0)
  {
  }

  /** int_log2: fails, where the program exits, unless n is a power of two. */
  method IntLog2(n: nat) returns (ok: bool, log: nat)
    ensures ok <==> exists m: nat :: n == Pow2(m)
    ensures ok ==> n == Pow2(log)
  {
    var k := 1;
    log := 0;
    while k < n
      invariant k == Pow2(log) && (log > 0 ==> Pow2(log - 1) < n)
      decreases n - k
    {
      k := 2 * k;
      log := log + 1;
    }
    ok := n == k;
    if !ok {
      forall m: nat ensures n != Pow2(m) {
        if m < log {
          Pow2Mono(m, log - 1);
        } else {
          Pow2Mono(log, m);
        }
      }
    }
  }

  /** The loop over the blocks for place a, the factor at hand. */
  method Pass(data: array<Complex>, dual: nat, a: nat, w: Complex, ghost s0: seq<Complex>, ghost cnt: nat,
      ghost root: Complex)
    requires a < dual && w == Pow(root, a) && Passed(s0, data[..], dual, cnt, root, a, 0)
    modifies data
    ensures Passed(s0, data[..], dual, cnt, root, a + 1, 0)
  {
    hide Pow, Mul, Passed, Idx;
    PassedSize(s0, data[..], dual, cnt, root, a, 0);
    var b := 0;
    ghost var c := 0;
    while b < data.Length
      invariant b == c * (2 * dual) && c <= cnt && Passed(s0, data[..], dual, cnt, root, a, c)
    {
      BlockLeft(c, cnt, dual, a);
      PassedStep(s0, data[..], dual, cnt, root, a, c);
      var i, j := b + a, b + a + dual;
      var wd := Times(w, data[j]);
      Butterfly(data, i, j, wd);
      b, c := b + 2 * dual, c + 1;
    }
    AllBlocks(c, cnt, dual);
    PassedNext(s0, data[..], dual, cnt, root, a);
  }

  /** The first loop, for place 0, where the factor is one and is left out. */
  method FirstPass(data: array<Complex>, dual: nat, ghost s0: seq<Complex>, ghost cnt: nat, ghost root: Complex)
    requires 0 < dual && Passed(s0, data[..], dual, cnt, root, 0, 0)
    modifies data
    ensures Passed(s0, data[..], dual, cnt, root, 1, 0)
  {
    hide Mul, Passed, Idx;
    PassedSize(s0, data[..], dual, cnt, root, 0, 0);
    var b := 0;
    ghost var c := 0;
    while b < data.Length
      invariant b == c * (2 * dual) && c <= cnt && Passed(s0, data[..], dual, cnt, root, 0, c)
    {
      BlockLeft(c, cnt, dual, 0);
      PassedStep(s0, data[..], dual, cnt, root, 0, c);
      MulOne(data[b + dual]);
      Butterfly(data, b, b + dual, data[b + dual]);
      b, c := b + 2 * dual, c + 1;
    }
    AllBlocks(c, cnt, dual);
    PassedNext(s0, data[..], dual, cnt, root, 0);
  }

  /** The product as the program writes it. */
  method Times(w: Complex, z: Complex) returns (wd: Complex)
    ensures wd == Mul(w, z)
  {
    wd := Complex(w.re * z.re - w.im * z.im, w.re * z.im + w.im * z.re);
  }

  method Butterfly(data: array<Complex>, i: nat, j: nat, wd: Complex)
    requires i < j < data.Length
    modifies data
    ensures data[..] == Crossed(old(data[..]), i, j, wd)
  {
    data[j] := Sub(data[i], wd);
    data[i] := Add(data[i], wd);
  }

  lemma PassedSize(s0: seq<Complex>, s: seq<Complex>, dual: nat, cnt: nat, w: Complex, a: nat, b: nat)
    requires Passed(s0, s, dual, cnt, w, a, b)
    ensures |s| == cnt * (2 * dual)
  {
  }

  lemma BlockLeft(c: nat, cnt: nat, dual: nat, a: nat)
    requires c <= cnt && c * (2 * dual) < cnt * (2 * dual)
    ensures c < cnt && (c + 1) * (2 * dual) == c * (2 * dual) + 2 * dual
    ensures Idx(c, 2 * dual, a) == c * (2 * dual) + a && Idx(c, 2 * dual, a + dual) == c * (2 * dual) + a + dual
  {
  }

  lemma AllBlocks(c: nat, cnt: nat, dual: nat)
    requires c <= cnt && 0 < dual && c * (2 * dual) >= cnt * (2 * dual)
    ensures c == cnt
  {
  }

  /** One round of the outer loop: all the butterflies of a stage. */
  method RunStage(data: array<Complex>,
      sin: real -> real, theta: real, dual: nat, ghost m: nat, ghost bit: nat, ghost x: seq<Complex>,
          ghost root: seq<Complex>)
    requires bit < m && dual == Pow2(bit) && Roots(root) && Stage(m, bit, x, data[..], root)
    requires root[bit + 1] == Turn(sin, theta)
    modifies data
    ensures Stage(m, bit + 1, x, data[..], root)
  {
    hide Pow, Mul, Passed, Roots, Stage, Turn;
    var w := ONE;
    var s := sin(theta);
    var t := sin(theta / 2.0);
    var s2 := 2.0 * t * t;
    StageSize(m, bit, x, data[..], root);
    ghost var s0, cnt, z := data[..], Pow2(m - bit - 1), root[bit + 1];
    PassedNone(data[..], dual, cnt, z);
    FirstPass(data, dual, s0, cnt, z);
    PowZero(z);
    var a := 1;
    while a < dual
      invariant 1 <= a <= dual && w == Pow(z, a - 1) && Passed(s0, data[..], dual, cnt, z, a, 0)
    {
      TurnStep(sin, theta, w, s, s2);
      PowNext(z, a - 1);
      w := Complex(w.re - s * w.im - s2 * w.re, w.im + s * w.re - s2 * w.im);
      Pass(data, dual, a, w, s0, cnt, z);
      a := a + 1;
    }
    StageStep(m, bit, x, s0, data[..], root);
  }

  lemma PowZero(w: Complex)
    ensures Pow(w, 0) == ONE
  {
  }

  lemma PowNext(w: Complex, e: nat)
    ensures Pow(w, e + 1) == Mul(w, Pow(w, e))
  {
  }

  lemma StageSize(m: nat, t: nat, x: seq<Complex>, s: seq<Complex>, root: seq<Complex>)
    requires Stage(m, t, x, s, root) && t < m
    ensures |s| == Pow2(m - t - 1) * (2 * Pow2(t)) && |root| == m + 1
  {
    Pow2Add(m - t - 1, t + 1);
  }

  /** The trigonometric recurrence multiplies by the root. */
  lemma TurnStep(sin: real -> real, theta: real, w: Complex, s: real, s2: real)
    requires s == sin(theta) && s2 == 2.0 * sin(theta / 2.0) * sin(theta / 2.0)
    ensures Complex(w.re - s * w.im - s2 * w.re, w.im + s * w.re - s2 * w.im) == Mul(Turn(sin, theta), w)
  {
    assert Cos(sin, theta) == 1.0 - s2;
  }

  /** The root of the transform of n numbers: 2 * half / n on the unit circle. */
  function UnitRoot(sin: real -> real, half: real, n: nat): Complex {
    if n <= 1 then ONE else Turn(sin, 2.0 * half / n as real)
  }

  lemma UnitRootIs(sin: real -> real, half: real, m: nat)
    ensures UnitRoot(sin, half, Pow2(m)) == RootsOf(sin, half, m)[m]
  {
    if m > 0 {
      var d := Pow2(m - 1) as real;
      assert Pow2(m) as real == 2.0 * d;
      assert 2.0 * half / (2.0 * d) == half / d;
    }
  }

  lemma Theta(half: real, bit: nat)
    ensures 2.0 * half / (2.0 * Pow2(bit) as real) == Angle(half, bit)
  {
    var d := Pow2(bit) as real;
    assert 2.0 * half / (2.0 * d) == half / d;
  }

  lemma OneIsItself(x: seq<Complex>)
    requires |x| == 1
    ensures IsDft(x, x, ONE)
  {
    MulOne(x[0]);
    assert Dft(x, ONE, 0, 1, 1, 0) == Add(Dft(x, ONE, 0, 1, 0, 0), Mul(At(x, 0 + 0 * 1), Pow(ONE, 0 * 0)));
  }

  /** FFT_transform_internal: the discrete Fourier transform, in place; it fails, where the program
      exits, unless the length is a power of two. */
  method TransformInternal(data: array<Complex>, sin: real -> real, pi: real, direction: int) returns (ok: bool)
    requires IsSine(sin, pi) && (direction == 1 || direction == -1)
    modifies data
    ensures ok <==> exists m: nat :: data.Length == Pow2(m)
    ensures ok ==> IsDft(old(data[..]), data[..], UnitRoot(sin, direction as real * pi, data.Length))
    ensures !ok ==> data[..] == old(data[..])
  {
    hide Rev, Stage, Roots, IsDft, IsSine, Reversal, RootsOf, UnitRoot, Angle;
    var n := data.Length;
    ghost var half := direction as real * pi;
    if n == 1 {
      OneRoot(sin, half);
      OneIsItself(data[..]);
      return true;
    }
    var logn;
    ok, logn := IntLog2(n);
    if !ok {
      return;
    }
    ghost var x, root := data[..], RootsOf(sin, half, logn);
    RootsOk(sin, pi, half, logn);
    FftBitReverse(data, logn);
    StageStart(logn, x, data[..], root);
    var bit, dual := 0, 1;
    while bit < logn
      invariant 0 <= bit <= logn && dual == Pow2(bit) && Stage(logn, bit, x, data[..], root)
    {
      var theta := 2.0 * direction as real * pi / (2.0 * dual as real);
      Theta(half, bit);
      SameTheta(direction as real, pi, half);
      RunStage(data, sin, theta, dual, logn, bit, x, root);
      bit, dual := bit + 1, 2 * dual;
    }
    StageEnd(logn, x, data[..], root);
    UnitRootIs(sin, half, logn);
  }

  lemma OneRoot(sin: real -> real, half: real)
    ensures Pow2(0) == 1 && UnitRoot(sin, half, 1) == ONE
  {
  }

  lemma SameTheta(direction: real, pi: real, half: real)
    requires half == direction * pi
    ensures 2.0 * direction * pi == 2.0 * half
  {
  }

  /** FFT_transform. */
  method Transform(data: array<Complex>, sin: real -> real, pi: real) returns (ok: bool)
    requires IsSine(sin, pi)
    modifies data
    ensures ok <==> exists m: nat :: data.Length == Pow2(m)
    ensures ok ==> IsDft(old(data[..]), data[..], UnitRoot(sin, -pi, data.Length))
    ensures !ok ==> data[..] == old(data[..])
  {
    hide IsDft, IsSine, UnitRoot, Pow2;
    assert -1 as real * pi == -pi;
    ok := TransformInternal(data, sin, pi, -1);
  }

  function Scale(z: Complex, f: real): Complex {
    Complex(z.re * f, z.im * f)
  }

  /** z is the normalized transform of y for the root v. */
  ghost predicate IsInverse(y: seq<Complex>, z: seq<Complex>, v: Complex) {
    |z| == |y| && forall k: nat | k < |z| :: z[k] == Scale(Dft(y, v, 0, 1, |y|, k), 1.0 / |y| as real)
  }

  /** FFT_inverse. */
  method Inverse(data: array<Complex>, sin: real -> real, pi: real) returns (ok: bool)
    requires IsSine(sin, pi)
    modifies data
    ensures ok <==> exists m: nat :: data.Length == Pow2(m)
    ensures ok ==> IsInverse(old(data[..]), data[..], UnitRoot(sin, pi, data.Length))
    ensures !ok ==> data[..] == old(data[..])
  {
    hide IsSine, UnitRoot, Pow2, Dft;
    assert 1 as real * pi == pi;
    ok := TransformInternal(data, sin, pi, 1);
    if !ok {
      return;
    }
    ghost var y := data[..];
    Positive();
    var norm := 1.0 / data.Length as real;
    var i := 0;
    while i < data.Length
      invariant 0 <= i <= data.Length
      invariant forall k | 0 <= k < data.Length :: data[k] == if k < i then Scale(y[k], norm) else y[k]
    {
      data[i] := Scale(data[i], norm);
      i := i + 1;
    }
  }

  lemma Positive()
    ensures forall m: nat :: Pow2(m) > 0
  {
  }

  // The inverse undoes the transform.

  /** The sum of w^(d k) for k < n. */
  function Geometric(w: Complex, d: nat, n: nat): Complex {
    if n == 0 then ZERO else Add(Geometric(w, d, n - 1), Pow(w, d * (n - 1)))
  }

  lemma {:induction false} GeometricSplit(w: Complex, d: nat, a: nat, b: nat)
    ensures Geometric(w, d, a + b) == Add(Geometric(w, d, a), Mul(Pow(w, d * a), Geometric(w, d, b)))
  {
    hide Mul, Pow;
    MulOne(Pow(w, d * a));
    if b > 0 {
      GeometricSplit(w, d, a, b - 1);
      MulAdd(Pow(w, d * a), Geometric(w, d, b - 1), Pow(w, d * (b - 1)));
      Spread(d, a, b - 1);
      PowAdd(w, d * a, d * (b - 1));
    }
  }

  lemma {:induction false} GeometricEven(w: Complex, e: nat, n: nat)
    ensures Geometric(w, 2 * e, n) == Geometric(Square(w), e, n)
  {
    hide Mul, Pow, Square;
    if n > 0 {
      GeometricEven(w, e, n - 1);
      PowSquare(w, e * (n - 1));
      Double(e, n - 1);
    }
  }

  lemma OddPow(e: nat)
    ensures Pow(Sub(ZERO, ONE), 2 * e + 1) == Sub(ZERO, ONE)
  {
    hide Mul, Pow, Square;
    MinusOneSquared();
    PowSquare(Sub(ZERO, ONE), e);
    PowOne(e);
    PowNext(Sub(ZERO, ONE), 2 * e);
    MulOne(Sub(ZERO, ONE));
  }

  /** The powers of a root other than its zeroth sum to zero. */
  lemma {:induction false} GeometricZero(root: seq<Complex>, t: nat, d: nat)
    requires Roots(root) && t < |root| && 0 < d < Pow2(t)
    ensures Geometric(root[t], d, Pow2(t)) == ZERO
  {
    hide Mul, Pow, Square, Geometric;
    var w, h := root[t], Pow2(t - 1);
    GeometricSplit(w, d, h, h);
    MulOne(Pow(w, d * h));
    RootPow(root, t);
    if d % 2 == 0 {
      GeometricZero(root, t - 1, d / 2);
      GeometricEven(w, d / 2, h);
    } else {
      PowMul(w, h, d);
      OddPow(d / 2);
      MulNeg(ONE, Geometric(w, d, h));
      MulOne(Geometric(w, d, h));
      assert d * h == h * d;
    }
  }

  /** The sum of w^(j k) v^(k l) for k < n. */
  function Cross(w: Complex, v: Complex, j: nat, l: nat, n: nat): Complex {
    if n == 0 then ZERO else Add(Cross(w, v, j, l, n - 1), Factor(w, v, j, l, n - 1))
  }

  function Factor(w: Complex, v: Complex, j: nat, l: nat, k: nat): Complex {
    Mul(Pow(w, k * j), Pow(v, k * l))
  }

  /** Factors of w^a and v^b that cancel. */
  lemma Cancel(w: Complex, v: Complex, a: nat, b: nat)
    requires Mul(w, v) == ONE && a >= b
    ensures Mul(Pow(w, a), Pow(v, b)) == Pow(w, a - b) && Mul(Pow(v, b), Pow(w, a)) == Pow(w, a - b)
  {
    hide Mul, Pow;
    PowAdd(w, a - b, b);
    PowInverse(w, v, b);
    MulAssoc(Pow(w, a - b), Pow(w, b), Pow(v, b));
    MulOne(Pow(w, a - b));
    MulComm(Pow(w, a), Pow(v, b));
  }

  lemma MulSub(k: nat, a: nat, b: nat)
    requires a >= b
    ensures k * a >= k * b && k * a - k * b == (a - b) * k
  {
    assert k * a == k * b + k * (a - b);
  }

  lemma FactorIs(w: Complex, v: Complex, j: nat, l: nat, k: nat)
    requires Mul(w, v) == ONE
    ensures Factor(w, v, j, l, k) == if j >= l then Pow(w, (j - l) * k) else Pow(v, (l - j) * k)
  {
    hide Mul, Pow;
    MulComm(w, v);
    if j >= l {
      MulSub(k, j, l);
      Cancel(w, v, k * j, k * l);
    } else {
      MulSub(k, l, j);
      Cancel(v, w, k * l, k * j);
    }
  }

  lemma {:induction false} CrossIs(w: Complex, v: Complex, j: nat, l: nat, n: nat)
    requires Mul(w, v) == ONE
    ensures Cross(w, v, j, l, n) == if j >= l then Geometric(w, j - l, n) else Geometric(v, l - j, n)
  {
    hide Mul, Pow, Factor;
    if n > 0 {
      CrossIs(w, v, j, l, n - 1);
      FactorIs(w, v, j, l, n - 1);
    }
  }

  /** The transform of the first n coefficients, for the root v, of the transform of the first len numbers. */
  function Twice(x: seq<Complex>, w: Complex, v: Complex, len: nat, n: nat, l: nat): Complex {
    if n == 0 then ZERO else Add(Twice(x, w, v, len, n - 1, l), Coefficient(x, w, v, len, n - 1, l))
  }

  function Coefficient(x: seq<Complex>, w: Complex, v: Complex, len: nat, k: nat, l: nat): Complex {
    Mul(Dft(x, w, 0, 1, len, k), Pow(v, k * l))
  }

  lemma {:induction false} TwiceIs(x: seq<Complex>, y: seq<Complex>, w: Complex, v: Complex, n: nat, l: nat)
    requires IsDft(x, y, w) && n <= |y|
    ensures Dft(y, v, 0, 1, n, l) == Twice(x, w, v, |x|, n, l)
  {
    hide Mul, Pow;
    if n > 0 {
      TwiceIs(x, y, w, v, n - 1, l);
      assert At(y, 0 + (n - 1) * 1) == y[n - 1];
    }
  }

  /** One more number adds its multiple of a cross sum. */
  lemma {:induction false} TwiceStep(x: seq<Complex>, w: Complex, v: Complex, len: nat, n: nat, l: nat)
    requires len < |x|
    ensures Twice(x, w, v, len + 1, n, l) == Add(Twice(x, w, v, len, n, l), Mul(x[len], Cross(w, v, len, l, n)))
  {
    hide Mul, Pow, Dft;
    MulOne(x[len]);
    if n > 0 {
      var k := n - 1;
      TwiceStep(x, w, v, len, k, l);
      TermStep(x, w, v, len, k, l);
      MulAdd(x[len], Cross(w, v, len, l, k), Factor(w, v, len, l, k));
    }
  }

  lemma TermStep(x: seq<Complex>, w: Complex, v: Complex, len: nat, k: nat, l: nat)
    requires len < |x|
    ensures Mul(Dft(x, w, 0, 1, len + 1, k), Pow(v, k * l)) == Add(Mul(Dft(x, w, 0, 1, len, k), Pow(v, k * l)),
        Mul(x[len], Factor(w, v, len, l, k)))
  {
    hide Mul, Pow;
    var p, q := Pow(w, len * k), Pow(v, k * l);
    assert At(x, 0 + len * 1) == x[len] && len * k == k * len;
    MulAdd(q, Dft(x, w, 0, 1, len, k), Mul(x[len], p));
    MulAssoc(x[len], p, q);
  }

  lemma {:induction false} GeometricOne(w: Complex, n: nat)
    ensures Geometric(w, 0, n) == Complex(n as real, 0.0)
  {
    hide Mul;
    if n > 0 {
      GeometricOne(w, n - 1);
      assert Pow(w, 0 * (n - 1)) == ONE;
    }
  }

  /** Two root systems that cancel. */
  ghost predicate Opposite(root: seq<Complex>, conj: seq<Complex>, m: nat) {
    Roots(root) && Roots(conj) && |root| == |conj| == m + 1 && Mul(root[m], conj[m]) == ONE
  }

  lemma CrossLeft(z: Complex, root: seq<Complex>, conj: seq<Complex>, m: nat, j: nat, l: nat)
    requires Opposite(root, conj, m) && j < Pow2(m) && l < Pow2(m)
    ensures Mul(z, Cross(root[m], conj[m], j, l, Pow2(m))) == if j == l then Scale(z, Pow2(m) as real) else ZERO
  {
    hide Mul, Pow, Roots, Cross, Geometric, Scale, Pow2;
    CrossIs(root[m], conj[m], j, l, Pow2(m));
    MulOne(z);
    if j == l {
      GeometricOne(root[m], Pow2(m));
      ScaleIs(z, Pow2(m) as real);
    } else if j > l {
      GeometricZero(root, m, j - l);
    } else {
      GeometricZero(conj, m, l - j);
    }
  }

  /** Of all the numbers only the l-th is left, n times. */
  lemma {:induction false} OnlyOneLeft(x: seq<Complex>, root: seq<Complex>, conj: seq<Complex>, m: nat, len: nat,
      l: nat)
    requires Opposite(root, conj, m) && |x| == Pow2(m) && len <= |x| && l < |x|
    ensures Twice(x, root[m], conj[m], len, |x|, l) == if l < len then Scale(x[l], Pow2(m) as real) else ZERO
    decreases len
  {
    hide Mul, Twice, Roots, Cross, Scale, Pow2;
    if len == 0 {
      TwiceNone(x, root[m], conj[m], |x|, l);
    } else {
      OnlyOneLeft(x, root, conj, m, len - 1, l);
      TwiceStep(x, root[m], conj[m], len - 1, |x|, l);
      CrossLeft(x[len - 1], root, conj, m, len - 1, l);
    }
  }

  lemma {:induction false} TwiceNone(x: seq<Complex>, w: Complex, v: Complex, n: nat, l: nat)
    ensures Twice(x, w, v, 0, n, l) == ZERO
  {
    hide Mul, Pow;
    if n > 0 {
      TwiceNone(x, w, v, n - 1, l);
      MulOne(Pow(v, (n - 1) * l));
    }
  }

  lemma ScaleIs(z: Complex, f: real)
    ensures Mul(z, Complex(f, 0.0)) == Scale(z, f)
  {
  }

  lemma Unscale(z: Complex, n: nat)
    requires n > 0
    ensures Scale(Scale(z, n as real), 1.0 / n as real) == z
  {
    var f := n as real;
    assert f * (1.0 / f) == 1.0;
    assert (z.re * f) * (1.0 / f) == z.re * (f * (1.0 / f)) && (z.im * f) * (1.0 / f) == z.im * (f * (1.0 / f));
  }

  /** Roots of opposite turns cancel. */
  lemma TurnsCancel(sin: real -> real, pi: real, m: nat)
    requires IsSine(sin, pi)
    ensures Opposite(RootsOf(sin, -pi, m), RootsOf(sin, pi, m), m)
  {
    hide Roots, IsSine, Mul, Turn, Angle, RootsOf;
    RootsOk(sin, pi, -pi, m);
    RootsOk(sin, pi, pi, m);
    MulOne(ONE);
    if m > 0 {
      TurnBack(sin, pi, Angle(pi, m - 1));
      AngleNeg(pi, m - 1);
    }
  }

  lemma AngleNeg(half: real, bit: nat)
    ensures Angle(-half, bit) == -Angle(half, bit)
  {
    NegDiv(half, Pow2(bit) as real);
  }

  lemma NegDiv(a: real, d: real)
    requires d > 0.0
    ensures -a / d == -(a / d)
  {
    var q, q' := a / d, -a / d;
    assert q * d == a && q' * d == -a;
    assert (q + q') * d == 0.0;
  }

  lemma TurnBack(sin: real -> real, pi: real, x: real)
    requires IsSine(sin, pi)
    ensures Mul(Turn(sin, -x), Turn(sin, x)) == ONE
  {
    assert SineAt(sin, x) && SineAt(sin, x / 2.0) && -x / 2.0 == -(x / 2.0);
    var c, s := Cos(sin, x), sin(x);
    assert Cos(sin, -x) == c && sin(-x) == -s && Pythagoras(c, s);
  }

  /** FFT_inverse after FFT_transform gives every number back. */
  lemma RoundTrip(sin: real -> real, pi: real, m: nat, x: seq<Complex>, y: seq<Complex>, z: seq<Complex>)
    requires IsSine(sin, pi) && |x| == Pow2(m)
    requires IsDft(x, y, UnitRoot(sin, -pi, |x|)) && IsInverse(y, z, UnitRoot(sin, pi, |x|))
    ensures z == x
  {
    hide IsSine, Dft, UnitRoot, RootsOf, Twice, Scale, Opposite;
    UnitRootIs(sin, pi, m);
    UnitRootIs(sin, -pi, m);
    TurnsCancel(sin, pi, m);
    var w, v := RootsOf(sin, -pi, m), RootsOf(sin, pi, m);
    forall l: nat | l < |x| ensures z[l] == x[l] {
      TwiceIs(x, y, w[m], v[m], |x|, l);
      OnlyOneLeft(x, w, v, m, |x|, l);
      Unscale(x[l], |x|);
    }
  }
}
